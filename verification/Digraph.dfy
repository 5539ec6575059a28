/**
 Directed graphs as successor lists, and the vocabulary the schedulers are judged by:
 walks, cycles, the nodes no cycle reaches, and orders in which every predecessor comes first.
 Nothing here knows about schedulers.
 */
module Digraph {

  type Graph = map<string, seq<string>>

  predicate Edge(g: Graph, u: string, v: string)
  {
    u in g && v in g[u]
  }

  ghost predicate Closed(g: Graph)
  {
    forall u, v :: Edge(g, u, v) ==> v in g
  }

  ghost predicate SimpleLists(g: Graph)
  {
    forall u :: u in g ==> Distinct(g[u])
  }

  ghost predicate Distinct(s: seq<string>)
  {
    forall i, j :: 0 <= i < j < |s| ==> s[i] != s[j]
  }

  ghost function Elements(s: seq<string>): set<string>
  {
    set x | x in s
  }

  ghost predicate IsWalk(g: Graph, p: seq<string>)
  {
    p != [] && forall i :: 0 <= i < |p| - 1 ==> Edge(g, p[i], p[i + 1])
  }

  /** A closed walk of at least one edge. */
  ghost predicate Cyclic(g: Graph)
  {
    exists p :: IsWalk(g, p) && |p| >= 2 && p[0] == p[|p| - 1]
  }

  /** A walk into `v` that visits some node twice: `v` is on a cycle or downstream of one. */
  ghost predicate Lasso(g: Graph, p: seq<string>, v: string)
  {
    IsWalk(g, p) && p[|p| - 1] == v && !Distinct(p)
  }

  ghost predicate Blocked(g: Graph, v: string)
  {
    exists p :: Lasso(g, p, v)
  }

  /** The nodes that no cycle reaches. */
  ghost function Clean(g: Graph): set<string>
  {
    set v | v in g && !Blocked(g, v)
  }

  ghost predicate AllPredsIn(g: Graph, done: seq<string>, v: string)
  {
    forall u :: Edge(g, u, v) ==> u in done
  }

  ghost predicate PredsFirst(g: Graph, order: seq<string>)
  {
    forall i :: 0 <= i < |order| ==> AllPredsIn(g, order[..i], order[i])
  }

  /** A permutation of all nodes in which every edge points forward. */
  ghost predicate TopoOrder(g: Graph, order: seq<string>)
  {
    Distinct(order) && Elements(order) == g.Keys && PredsFirst(g, order)
  }

  lemma InBeginning(t: seq<string>, p: seq<string>, j: nat)
    requires p <= t && j < |t|
    ensures j < |p| ==> t[j] in p
  {
    if j < |p| {
      assert p[j] == t[j];
    }
  }

  lemma DistinctSnoc(s: seq<string>, x: string)
    ensures Distinct(s + [x]) <==> Distinct(s) && x !in s
  {
    var t := s + [x];
    if Distinct(t) {
      assert forall i, j :: 0 <= i < j < |s| ==> s[i] == t[i] && s[j] == t[j];
      assert forall i :: 0 <= i < |s| ==> s[i] == t[i] != t[|s|] == x;
    }
  }

  lemma DistinctParts(a: seq<string>, b: seq<string>)
    ensures Distinct(a + b) <==> Distinct(a) && Distinct(b) && forall x :: x in a ==> x !in b
  {
    var t := a + b;
    if Distinct(t) {
      assert forall i, j :: 0 <= i < j < |a| ==> t[i] == a[i] && t[j] == a[j];
      forall i, j | 0 <= i < j < |b|
        ensures b[i] != b[j]
      {
        assert t[|a| + i] == b[i] && t[|a| + j] == b[j];
      }
      forall x | x in a
        ensures x !in b
      {
        var i :| 0 <= i < |a| && a[i] == x;
        assert t[i] == x;
        assert forall j :: 0 <= j < |b| ==> t[|a| + j] == b[j];
      }
    }
    if Distinct(a) && Distinct(b) && forall x :: x in a ==> x !in b {
      forall i, j | 0 <= i < j < |t|
        ensures t[i] != t[j]
      {
        if i < |a| <= j {
          assert t[i] in a && t[j] in b;
        }
      }
    }
  }

  lemma {:induction false} DistinctSize(s: seq<string>)
    ensures |Elements(s)| <= |s|
    ensures |Elements(s)| == |s| <==> Distinct(s)
  {
    if s == [] {
      assert Elements(s) == {};
    } else {
      var n := |s| - 1;
      var t, x := s[..n], s[n];
      assert s == t + [x];
      DistinctSize(t);
      DistinctSnoc(t, x);
      assert Elements(s) == Elements(t) + {x};
      assert x in Elements(t) ==> Elements(s) == Elements(t);
    }
  }

  lemma SubsetSize(a: set<string>, b: set<string>)
    requires a <= b
    ensures |a| <= |b|
    ensures |a| == |b| ==> a == b
  {
    assert b == a + (b - a);
    assert |b| == |a| + |b - a|;
  }

  /** Position arithmetic along a walk inside an order that puts predecessors first. */
  lemma {:induction false} WalkClimbs(g: Graph, order: seq<string>, p: seq<string>, i: nat)
    requires Distinct(order) && PredsFirst(g, order)
    requires IsWalk(g, p) && i < |order| && p[|p| - 1] == order[i]
    ensures Distinct(p)
    ensures forall x :: x in p ==> x in order[..i + 1]
    decreases |p|
  {
    var n := |p| - 1;
    if n > 0 {
      assert Edge(g, p[n - 1], p[n]);
      assert AllPredsIn(g, order[..i], order[i]);
      var j :| 0 <= j < i && order[j] == p[n - 1];
      WalkClimbs(g, order, p[..n], j);
      assert p == p[..n] + [p[n]];
      forall x | x in p[..n]
        ensures x in order[..i + 1] && x != p[n]
      {
        var k :| 0 <= k < j + 1 && order[k] == x;
      }
      forall a, b | 0 <= a < b < |p|
        ensures p[a] != p[b]
      {
        assert p[..n][a] in p[..n];
        if b < n {
          assert p[..n][a] != p[..n][b];
        }
      }
    }
  }

  lemma OrderedIsClean(g: Graph, order: seq<string>)
    requires Distinct(order) && PredsFirst(g, order) && Elements(order) <= g.Keys
    ensures Elements(order) <= Clean(g)
  {
    forall v | v in order
      ensures !Blocked(g, v)
    {
      var i :| 0 <= i < |order| && order[i] == v;
      forall p
        ensures !Lasso(g, p, v)
      {
        if IsWalk(g, p) && p[|p| - 1] == v {
          WalkClimbs(g, order, p, i);
        }
      }
    }
  }

  ghost predicate HasPredIn(g: Graph, r: set<string>, w: string)
  {
    exists u :: u in r && Edge(g, u, w)
  }

  /** Every member of `r` has a predecessor in `r`. */
  ghost predicate Stuck(g: Graph, r: set<string>)
  {
    forall w {:trigger HasPredIn(g, r, w)} :: w in r ==> HasPredIn(g, r, w)
  }

  /** Inside a stuck set, arbitrarily long walks end at any given member. */
  lemma {:induction false} BackwardWalk(g: Graph, r: set<string>, v: string, len: nat) returns (p: seq<string>)
    requires v in r && len >= 1 && Stuck(g, r)
    ensures IsWalk(g, p) && |p| == len && p[len - 1] == v && Elements(p) <= r
    decreases len
  {
    if len == 1 {
      p := [v];
    } else {
      var q := BackwardWalk(g, r, v, len - 1);
      assert q[0] in Elements(q);
      assert HasPredIn(g, r, q[0]);
      var u :| u in r && Edge(g, u, q[0]);
      p := [u] + q;
      assert Elements(p) == {u} + Elements(q);
    }
  }

  lemma LongRepeats(p: seq<string>, r: set<string>)
    requires Elements(p) <= r && |p| > |r|
    ensures !Distinct(p)
  {
    if Distinct(p) {
      DistinctSize(p);
      SubsetSize(Elements(p), r);
    }
  }

  lemma StuckIsBlocked(g: Graph, r: set<string>, v: string)
    requires v in r && Stuck(g, r)
    ensures Blocked(g, v)
  {
    var p := BackwardWalk(g, r, v, |r| + 1);
    LongRepeats(p, r);
    assert Lasso(g, p, v);
  }

  /** A closed walk is a walk that visits its start twice. */
  lemma ClosedWalkBlocks(g: Graph, p: seq<string>)
    requires IsWalk(g, p) && |p| >= 2 && p[0] == p[|p| - 1]
    ensures p[0] in g && Blocked(g, p[0])
  {
    assert Edge(g, p[0], p[0 + 1]);
    TwiceIsLasso(g, p);
  }

  lemma TwiceIsLasso(g: Graph, p: seq<string>)
    requires IsWalk(g, p) && |p| >= 2 && p[0] == p[|p| - 1]
    ensures Blocked(g, p[0])
  {
    hide IsWalk;
    assert !Distinct(p);
    assert Lasso(g, p, p[0]);
  }

  lemma PartOfWalk(g: Graph, p: seq<string>, i: nat, j: nat)
    requires IsWalk(g, p) && i < j < |p|
    ensures IsWalk(g, p[i..j + 1])
    ensures |p[i..j + 1]| >= 2 && p[i..j + 1][0] == p[i] && p[i..j + 1][j - i] == p[j]
  {
    hide Edge;
    var c := p[i..j + 1];
    forall k | 0 <= k < |c| - 1
      ensures Edge(g, c[k], c[k + 1])
    {
      assert Edge(g, p[i + k], p[i + k + 1]);
    }
  }

  /** A walk that visits a node twice contains a closed walk. */
  lemma LassoHoldsCycle(g: Graph, p: seq<string>)
    requires IsWalk(g, p) && !Distinct(p)
    ensures Cyclic(g)
  {
    hide IsWalk, Cyclic;
    var i, j :| 0 <= i < j < |p| && p[i] == p[j];
    PartOfWalk(g, p, i, j);
    ClosedIsCyclic(g, p[i..j + 1]);
  }

  lemma ClosedIsCyclic(g: Graph, c: seq<string>)
    requires IsWalk(g, c) && |c| >= 2 && c[0] == c[|c| - 1]
    ensures Cyclic(g)
  {
    hide IsWalk;
  }

  lemma BlockedIsCyclic(g: Graph, v: string)
    requires Blocked(g, v)
    ensures Cyclic(g)
  {
    hide IsWalk, Distinct, Cyclic;
    var p :| Lasso(g, p, v);
    LassoHoldsCycle(g, p);
  }

  lemma CyclicIsBlocked(g: Graph) returns (v: string)
    requires Cyclic(g)
    ensures v in g && Blocked(g, v)
  {
    hide IsWalk, Blocked;
    var p :| IsWalk(g, p) && |p| >= 2 && p[0] == p[|p| - 1];
    ClosedWalkBlocks(g, p);
    v := p[0];
  }

  lemma AcyclicIffAllClean(g: Graph)
    ensures Cyclic(g) <==> Clean(g) != g.Keys
  {
    hide Cyclic, Blocked;
    if Cyclic(g) {
      var v := CyclicIsBlocked(g);
      assert v in g.Keys && v !in Clean(g);
    }
    if Clean(g) != g.Keys {
      var v :| v in g && Blocked(g, v);
      BlockedIsCyclic(g, v);
    }
  }

  /** An order with every predecessor first exists only on an acyclic graph. */
  lemma TopoOrderIsAcyclic(g: Graph, order: seq<string>)
    requires TopoOrder(g, order)
    ensures !Cyclic(g)
  {
    OrderedIsClean(g, order);
    AcyclicIffAllClean(g);
  }

  /** Two topological orders that agree on a prefix agree everywhere once the rest of one is a chain. */
  lemma {:induction false} TailChainUnique(g: Graph, chain: seq<string>, t: seq<string>, k: nat, i: nat)
    requires TopoOrder(g, t) && Distinct(chain) && Elements(chain) == g.Keys
    requires k <= i <= |chain| && k <= |t| && chain[..k] == t[..k]
    requires forall j :: k <= j < |chain| - 1 ==> Edge(g, chain[j], chain[j + 1])
    ensures |t| == |chain| && t[..i] == chain[..i]
    decreases i
  {
    assert |t| == |chain| by {
      DistinctSize(t);
      DistinctSize(chain);
    }
    if i > k {
      TailChainUnique(g, chain, t, k, i - 1);
      var m := IndexIn(chain, t, i - 1);
      ChainSuccessorIsNext(g, chain, t, k, i - 1, m);
      assert t[..i] == t[..i - 1] + [t[i - 1]];
      assert chain[..i] == chain[..i - 1] + [chain[i - 1]];
    }
  }

  lemma IndexIn(a: seq<string>, b: seq<string>, j: nat) returns (m: nat)
    requires j < |b| && Elements(b) <= Elements(a)
    ensures m < |a| && a[m] == b[j]
  {
    assert b[j] in Elements(b);
    m :| 0 <= m < |a| && a[m] == b[j];
  }

  lemma ChainSuccessorIsNext(g: Graph, chain: seq<string>, t: seq<string>, k: nat, n: nat, m: nat)
    requires Distinct(t) && Distinct(chain) && PredsFirst(g, t)
    requires k <= n < |chain| == |t| && t[..n] == chain[..n]
    requires forall j :: k <= j < |chain| - 1 ==> Edge(g, chain[j], chain[j + 1])
    requires m < |chain| && chain[m] == t[n]
    ensures m == n
  {
    assert forall q :: 0 <= q < n ==> t[q] == t[..n][q] == chain[..n][q] == chain[q];
    assert AllPredsIn(g, t[..n], t[n]);
    if m - 1 >= k {
      assert Edge(g, chain[m - 1], chain[m - 1 + 1]);
      assert chain[m - 1] in t[..n];
      var q :| 0 <= q < n && t[..n][q] == chain[m - 1];
      assert chain[q] == chain[m - 1];
    }
  }

  /** `a` stands somewhere before `b`. */
  ghost predicate Before(s: seq<string>, a: string, b: string)
  {
    exists i, j :: 0 <= i < j < |s| && s[i] == a && s[j] == b
  }

  lemma PredIsBefore(g: Graph, order: seq<string>, u: string, v: string)
    requires PredsFirst(g, order) && Edge(g, u, v) && v in order
    ensures Before(order, u, v)
  {
    var j :| 0 <= j < |order| && order[j] == v;
    assert AllPredsIn(g, order[..j], order[j]);
    var i :| 0 <= i < j && order[..j][i] == u;
    assert order[i] == u;
  }

  lemma BeforeMeansPredsFirst(g: Graph, order: seq<string>)
    requires Distinct(order)
    requires forall u, v :: Edge(g, u, v) && v in order ==> Before(order, u, v)
    ensures PredsFirst(g, order)
  {
    forall k, u | 0 <= k < |order| && Edge(g, u, order[k])
      ensures u in order[..k]
    {
      assert Before(order, u, order[k]);
      var i, j :| 0 <= i < j < |order| && order[i] == u && order[j] == order[k];
      assert j == k && order[..k][i] == u;
    }
  }

  lemma BeforeIsStrict(s: seq<string>, a: string, b: string)
    requires Distinct(s) && Before(s, a, b)
    ensures a != b && !Before(s, b, a) && a in s && b in s
  {
  }

  lemma BeforeInParts(p: seq<string>, s: seq<string>, a: string, b: string)
    ensures Before(p, a, b) ==> Before(p + s, a, b)
    ensures Before(s, a, b) ==> Before(p + s, a, b)
    ensures a in p && b in s ==> Before(p + s, a, b)
  {
    var t := p + s;
    if Before(p, a, b) {
      var i, j :| 0 <= i < j < |p| && p[i] == a && p[j] == b;
      assert t[i] == a && t[j] == b;
    }
    if Before(s, a, b) {
      var i, j :| 0 <= i < j < |s| && s[i] == a && s[j] == b;
      assert t[|p| + i] == a && t[|p| + j] == b;
    }
    if a in p && b in s {
      var i :| 0 <= i < |p| && p[i] == a;
      var j :| 0 <= j < |s| && s[j] == b;
      assert t[i] == a && t[|p| + j] == b;
    }
  }

  /** The converse of `BeforeInParts`, when no id repeats. */
  lemma BeforeSplits(p: seq<string>, s: seq<string>, a: string, b: string)
    requires Distinct(p + s) && Before(p + s, a, b)
    ensures b in p ==> Before(p, a, b)
    ensures a in s ==> Before(s, a, b)
  {
    var t := p + s;
    DistinctParts(p, s);
    var i, j :| 0 <= i < j < |t| && t[i] == a && t[j] == b;
    if b in p {
      var k :| 0 <= k < |p| && p[k] == b;
      assert t[k] == b && k == j;
      assert p[i] == a && p[j] == b;
    }
    if a in s {
      var k :| 0 <= k < |s| && s[k] == a;
      assert t[|p| + k] == a && |p| + k == i;
      assert s[i - |p|] == a && s[j - |p|] == b;
    }
  }
}
