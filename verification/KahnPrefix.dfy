/**
 Two FIFO runs over different graphs emit the same first nodes `p` when the graphs look the same
 from inside a set `x` around `p`: the ready list of one run, restricted to `x`, is the ready list of the other.
 */
module KahnPrefix {
  import opened Wrappers
  import opened Digraph
  import opened KahnRun

  /** The members of `s` that are in `p`, in the order of `s`. */
  function Restrict(s: seq<string>, p: seq<string>): (r: seq<string>)
    ensures forall v :: v in r <==> v in s && v in p
  {
    if s == [] then []
    else
      var n := |s| - 1;
      assert s == s[..n] + [s[n]];
      if s[n] in p then Restrict(s[..n], p) + [s[n]] else Restrict(s[..n], p)
  }

  lemma RestrictSnoc(s: seq<string>, x: string, p: seq<string>)
    ensures Restrict(s + [x], p) == if x in p then Restrict(s, p) + [x] else Restrict(s, p)
  {
    assert (s + [x])[..|s|] == s;
  }

  lemma {:induction false} RestrictAppend(a: seq<string>, b: seq<string>, p: seq<string>)
    ensures Restrict(a + b, p) == Restrict(a, p) + Restrict(b, p)
  {
    if b == [] {
      assert a + b == a;
    } else {
      var n := |b| - 1;
      assert a + b == (a + b[..n]) + [b[n]] && b == b[..n] + [b[n]];
      RestrictAppend(a, b[..n], p);
      RestrictSnoc(a + b[..n], b[n], p);
      RestrictSnoc(b[..n], b[n], p);
    }
  }

  lemma {:induction false} FreedRestrict(g: Graph, done: seq<string>, s: seq<string>, p: seq<string>)
    ensures Restrict(Freed(g, done, s), p) == Freed(g, done, Restrict(s, p))
  {
    hide AllPredsIn;
    if s != [] {
      var n := |s| - 1;
      var x := s[n];
      assert s == s[..n] + [x];
      FreedRestrict(g, done, s[..n], p);
      FreedSnoc(g, done, s[..n], x);
      RestrictSnoc(Freed(g, done, s[..n]), x, p);
      FreedSnoc(g, done, Restrict(s[..n], p), x);
    }
  }

  lemma {:induction false} FreedOnlyInside(h: Graph, done: seq<string>, s: seq<string>, p: seq<string>)
    requires forall v :: v in s && v !in p ==> !AllPredsIn(h, done, v)
    ensures Freed(h, done, s) == Freed(h, done, Restrict(s, p))
  {
    hide AllPredsIn;
    if s != [] {
      var n := |s| - 1;
      var x := s[n];
      assert s == s[..n] + [x];
      FreedOnlyInside(h, done, s[..n], p);
      FreedSnoc(h, done, s[..n], x);
      FreedSnoc(h, done, Restrict(s[..n], p), x);
    }
  }

  lemma {:induction false} FreedSame(g: Graph, h: Graph, done: seq<string>, s: seq<string>)
    requires forall v :: v in s ==> (AllPredsIn(g, done, v) <==> AllPredsIn(h, done, v))
    ensures Freed(g, done, s) == Freed(h, done, s)
  {
    hide AllPredsIn;
    if s != [] {
      var n := |s| - 1;
      assert s == s[..n] + [s[n]];
      FreedSame(g, h, done, s[..n]);
    }
  }

  lemma {:induction false} FrontLoadRestrict(s: seq<string>, first: string, p: seq<string>)
    ensures Restrict(Keep(s, first), p) == Keep(Restrict(s, p), first)
    ensures Restrict(Drop(s, first), p) == Drop(Restrict(s, p), first)
    ensures Restrict(FrontLoad(s, first), p) == FrontLoad(Restrict(s, p), first)
  {
    RestrictAppend(Keep(s, first), Drop(s, first), p);
    if s != [] {
      var n := |s| - 1;
      var x := s[n];
      assert s == s[..n] + [x];
      FrontLoadRestrict(s[..n], first, p);
      RestrictSnoc(s[..n], x, p);
      RestrictSnoc(Keep(s[..n], first), x, p);
      RestrictSnoc(Drop(s[..n], first), x, p);
      SnocKeepDrop(Restrict(s[..n], p), x, first);
    }
  }

  lemma SnocKeepDrop(s: seq<string>, x: string, first: string)
    ensures Keep(s + [x], first) == if x == first then Keep(s, first) + [x] else Keep(s, first)
    ensures Drop(s + [x], first) == if x == first then Drop(s, first) else Drop(s, first) + [x]
  {
    assert (s + [x])[..|s|] == s;
  }

  /**
   Seen from inside `x`, the graphs agree; in `h` nothing outside `x` is free before `p`, a part of `x`, is out.
   In `g`, nodes outside `x` may be ready earlier: they are passed over.
   */
  ghost predicate Mirrors(g: Graph, h: Graph, x: seq<string>, p: seq<string>)
  {
    && (forall v :: v in p ==> v in x)
    && (forall u, v :: v in x ==> (Edge(g, u, v) <==> Edge(h, u, v)))
    && (forall u :: u in p ==> u in g && u in h && Restrict(g[u], x) == Restrict(h[u], x))
    && (forall v, i :: v in h && v !in x && 0 <= i < |p| ==> !AllPredsIn(h, p[..i], v))
  }

  lemma MirrorsIntro(g: Graph, h: Graph, x: seq<string>, p: seq<string>)
    requires forall v :: v in p ==> v in x
    requires forall u, v :: v in x ==> (Edge(g, u, v) <==> Edge(h, u, v))
    requires forall u :: u in p ==> u in g && u in h && Restrict(g[u], x) == Restrict(h[u], x)
    requires forall v, i :: v in h && v !in x && 0 <= i < |p| ==> !AllPredsIn(h, p[..i], v)
    ensures Mirrors(g, h, x, p)
  {
  }

  lemma MirrorsPreds(g: Graph, h: Graph, x: seq<string>, p: seq<string>, done: seq<string>, v: string)
    requires Mirrors(g, h, x, p) && v in x
    ensures AllPredsIn(g, done, v) <==> AllPredsIn(h, done, v)
  {
  }

  /** Releasing the successors of one prefix node frees the same nodes of `x` in both graphs. */
  lemma FreedAlike(g: Graph, h: Graph, x: seq<string>, p: seq<string>, i: nat, u: string)
    requires Mirrors(g, h, x, p) && Closed(h) && i < |p| && u in p
    ensures Restrict(Freed(g, p[..i], g[u]), x) == Freed(h, p[..i], h[u])
  {
    var done := p[..i];
    FreedRestrict(g, done, g[u], x);
    var inside := Restrict(h[u], x);
    forall v | v in inside
      ensures AllPredsIn(g, done, v) <==> AllPredsIn(h, done, v)
    {
      MirrorsPreds(g, h, x, p, done, v);
    }
    FreedSame(g, h, done, inside);
    forall v | v in h[u] && v !in x
      ensures !AllPredsIn(h, done, v)
    {
      assert Edge(h, u, v);
    }
    FreedOnlyInside(h, done, h[u], x);
  }

  lemma {:induction false} RunsAlike(g: Graph, h: Graph, cap: nat, cap': nat, x: seq<string>, p: seq<string>, i: nat,
                                     ready: seq<string>, ready': seq<string>)
    requires Closed(g) && Closed(h) && Mirrors(g, h, x, p) && i < |p|
    requires (forall v :: v in ready ==> v in g) && (forall v :: v in ready' ==> v in h)
    requires ready' == Restrict(ready, x)
    requires var t := KahnFrom(g, cap, ready, p[..i]); t.Some? && p <= t.value
    requires KahnFrom(h, cap', ready', p[..i]).Some?
    ensures p <= KahnFrom(h, cap', ready', p[..i]).value
    decreases |p| - i
  {
    hide *;
    PartOf(g, h, x, p);
    NextInRun(g, cap, ready, p, i);
    RestrictHead(ready, x);
    var u := p[i];
    assert p[..i] + [u] == p[..i + 1];
    HeadComesNext(h, cap', ready', p[..i]);
    if i + 1 < |p| {
      StepMembersIn(g, u, ready, p[..i + 1]);
      StepMembersIn(h, u, ready', p[..i + 1]);
      RunStep(g, cap, ready, p[..i]);
      RunStep(h, cap', ready', p[..i]);
      var next, next' := ready[1..] + Freed(g, p[..i + 1], g[u]), ready'[1..] + Freed(h, p[..i + 1], h[u]);
      FreedAlike(g, h, x, p, i + 1, u);
      RestrictAppend(ready[1..], Freed(g, p[..i + 1], g[u]), x);
      RunsAlike(g, h, cap, cap', x, p, i + 1, next, next');
    } else {
      assert p[..i + 1] == p;
    }
  }

  /** A run that is to begin with `p` has the next member of `p` at the head of its ready list. */
  lemma NextInRun(g: Graph, cap: nat, ready: seq<string>, p: seq<string>, i: nat)
    requires (forall v :: v in ready ==> v in g) && Closed(g) && i < |p|
    requires var t := KahnFrom(g, cap, ready, p[..i]); t.Some? && p <= t.value
    ensures ready != [] && ready[0] == p[i] && p[i] in p && p[i] in g
  {
    hide Closed, Freed;
    assert ready != [];
    HeadComesNext(g, cap, ready, p[..i]);
    var t := KahnFrom(g, cap, ready, p[..i]).value;
    assert (p[..i] + [ready[0]])[i] == t[i] == p[i];
    assert ready[0] in ready;
  }

  lemma RunStep(g: Graph, cap: nat, ready: seq<string>, order: seq<string>)
    requires (forall v :: v in ready ==> v in g) && Closed(g) && ready != [] && KahnFrom(g, cap, ready, order).Some?
    ensures ready[0] in g
    ensures var order' := order + [ready[0]];
            var next := ready[1..] + Freed(g, order', g[ready[0]]);
            (forall v :: v in next ==> v in g) && KahnFrom(g, cap, ready, order) == KahnFrom(g, cap, next, order')
  {
    hide Freed;
    assert ready[0] in ready;
    StepMembersIn(g, ready[0], ready, order + [ready[0]]);
  }

  lemma RestrictHead(s: seq<string>, x: seq<string>)
    requires s != [] && s[0] in x
    ensures var r := Restrict(s, x); r != [] && r[0] == s[0] && r[1..] == Restrict(s[1..], x)
  {
    hide Restrict;
    assert s == [s[0]] + s[1..];
    RestrictAppend([s[0]], s[1..], x);
    RestrictOne(s[0], x);
  }

  lemma PartOf(g: Graph, h: Graph, x: seq<string>, p: seq<string>)
    requires Mirrors(g, h, x, p)
    ensures forall v :: v in p ==> v in x
  {
  }

  lemma RestrictOne(u: string, p: seq<string>)
    requires u in p
    ensures Restrict([u], p) == [u]
  {
    RestrictSnoc([], u, p);
    assert [] + [u] == [u];
  }

  lemma StepMembersIn(g: Graph, u: string, ready: seq<string>, order: seq<string>)
    requires Closed(g) && ready != [] && ready[0] == u && forall v :: v in ready ==> v in g
    ensures forall v :: v in ready[1..] + Freed(g, order, g[u]) ==> v in g
  {
    assert u in ready;
    forall v | v in Freed(g, order, g[u])
      ensures v in g
    {
      assert Edge(g, u, v);
    }
  }

  /** Whole runs: the same node list inside `x` and the same entry give the same first nodes. */
  lemma SamePrefix(g: Graph, h: Graph, cap: nat, cap': nat, x: seq<string>, p: seq<string>, ids: seq<string>, ids': seq<string>,
                   entry: string)
    requires Closed(g) && Closed(h) && Mirrors(g, h, x, p) && p != []
    requires Elements(ids) == g.Keys && Elements(ids') == h.Keys
    requires Restrict(ids, x) == Restrict(ids', x)
    requires var t := Run(g, cap, ids, entry); t.Some? && p <= t.value
    requires Run(h, cap', ids', entry).Some?
    ensures p <= Run(h, cap', ids', entry).value
  {
    InitialMembers(g, ids, entry);
    InitialMembers(h, ids', entry);
    FreedRestrict(g, [], ids, x);
    var inside := Restrict(ids', x);
    assert p[..0] == [];
    forall v | v in inside
      ensures AllPredsIn(g, [], v) <==> AllPredsIn(h, [], v)
    {
      MirrorsPreds(g, h, x, p, [], v);
    }
    FreedSame(g, h, [], inside);
    forall v | v in ids' && v !in x
      ensures !AllPredsIn(h, [], v)
    {
      assert v in Elements(ids');
      assert !AllPredsIn(h, p[..0], v);
    }
    FreedOnlyInside(h, [], ids', x);
    FrontLoadRestrict(Freed(g, [], ids), entry, x);
    RunsAlike(g, h, cap, cap', x, p, 0, InitialReady(g, ids, entry), InitialReady(h, ids', entry));
  }
}
