/**
 Repair after a failed step: keep the finished prefix of the stored plan, graft the replanned
 remainder behind it, and relink the seam and the new tail into one `next` chain.
 */
module RepairSplice {
  import opened Wrappers
  import opened Digraph
  import opened TaskGraph
  import opened LinearDag

  datatype PlannedLiveDag = PlannedLiveDag(
    dag: DagManifest,
    order: seq<string>,
    usedFallback: bool,
    source: string,
    resumeFrom: nat,
    graphTaskOverride: Option<string>)

  datatype DagFailCursor = DagFailCursor(nodeId: string, index: nat, failClass: string)

  /** The order lists every node id exactly once: what any scheduler returned for the plan's graph. */
  ghost predicate Listed(plan: PlannedLiveDag)
  {
    UniqueIds(plan.dag.nodes) && Distinct(plan.order) && Elements(plan.order) == Elements(Ids(plan.dag.nodes))
  }

  // ---------------------------------------------------------------- what the splice builds

  function ResumeAt(stored: PlannedLiveDag, fail: DagFailCursor): nat
  {
    if fail.index < |stored.order| then fail.index else |stored.order|
  }

  function Prefix(stored: PlannedLiveDag, fail: DagFailCursor): seq<string>
  {
    stored.order[..ResumeAt(stored, fail)]
  }

  /** The replanned ids that are neither finished nor unknown to the replanned graph. */
  function Grafted(ids: seq<string>, nodes: seq<DagNode>, finished: seq<string>): (r: seq<string>)
    ensures forall v :: v in r <==> v in ids && v !in finished && v in Ids(nodes)
    ensures Distinct(ids) ==> Distinct(r)
  {
    if ids == [] then []
    else
      var n := |ids| - 1;
      var init := Grafted(ids[..n], nodes, finished);
      assert ids == ids[..n] + [ids[n]];
      DistinctSnoc(ids[..n], ids[n]);
      DistinctSnoc(init, ids[n]);
      if ids[n] in finished || Find(nodes, ids[n]).None? then init else init + [ids[n]]
  }

  function KeepNodes(nodes: seq<DagNode>, ids: seq<string>): (r: seq<DagNode>)
    ensures forall n :: n in r <==> n in nodes && n.id in ids
  {
    if nodes == [] then []
    else
      var k := |nodes| - 1;
      assert nodes == nodes[..k] + [nodes[k]];
      KeepNodes(nodes[..k], ids) + (if nodes[k].id in ids then [nodes[k]] else [])
  }

  function Lookup(ids: seq<string>, nodes: seq<DagNode>): (r: seq<DagNode>)
    requires forall v :: v in ids ==> v in Ids(nodes)
    ensures |r| == |ids|
    ensures forall i :: 0 <= i < |ids| ==> Find(nodes, ids[i]) == Some(r[i]) && r[i].id == ids[i]
  {
    seq(|ids|, i requires 0 <= i < |ids| => Find(nodes, ids[i]).value)
  }

  /** Whether the replan contributed nothing, so that the stored remainder is kept. */
  function KeepsStored(stored: PlannedLiveDag, fail: DagFailCursor, remaining: PlannedLiveDag): bool
  {
    Grafted(remaining.order, remaining.dag.nodes, Prefix(stored, fail)) == []
  }

  /** The part of the spliced order behind the finished prefix. */
  function Rest(stored: PlannedLiveDag, fail: DagFailCursor, remaining: PlannedLiveDag): seq<string>
  {
    if KeepsStored(stored, fail, remaining) then stored.order[ResumeAt(stored, fail)..]
    else Grafted(remaining.order, remaining.dag.nodes, Prefix(stored, fail))
  }

  function RestSource(stored: PlannedLiveDag, fail: DagFailCursor, remaining: PlannedLiveDag): PlannedLiveDag
  {
    if KeepsStored(stored, fail, remaining) then stored else remaining
  }

  /** The id after `id` in `s`, if there is one. */
  function After(s: seq<string>, id: string): Option<string>
  {
    if |s| < 2 then None
    else if s[0] == id then Some(s[1])
    else After(s[1..], id)
  }

  /** Every edge the splice rewrites, for one node. */
  function Relink(n: DagNode, prefix: seq<string>, rest: seq<string>): DagNode
  {
    if n.id in rest then n.(next := After(rest, n.id))
    else if prefix != [] && rest != [] && n.id == prefix[|prefix| - 1] then n.(next := Some(rest[0]))
    else n
  }

  function RelinkAll(nodes: seq<DagNode>, prefix: seq<string>, rest: seq<string>): (r: seq<DagNode>)
    ensures |r| == |nodes| && Ids(r) == Ids(nodes)
    ensures forall i :: 0 <= i < |nodes| ==> r[i] == Relink(nodes[i], prefix, rest)
  {
    seq(|nodes|, i requires 0 <= i < |nodes| => Relink(nodes[i], prefix, rest))
  }

  lemma RestKnown(stored: PlannedLiveDag, fail: DagFailCursor, remaining: PlannedLiveDag)
    requires Listed(stored)
    ensures forall v :: v in Rest(stored, fail, remaining) ==> v in Ids(RestSource(stored, fail, remaining).dag.nodes)
  {
    if KeepsStored(stored, fail, remaining) {
      forall v | v in Rest(stored, fail, remaining)
        ensures v in Ids(stored.dag.nodes)
      {
        assert v in Elements(stored.order);
      }
    }
  }

  function RawNodes(stored: PlannedLiveDag, fail: DagFailCursor, remaining: PlannedLiveDag): seq<DagNode>
    requires Listed(stored)
  {
    RestKnown(stored, fail, remaining);
    KeepNodes(stored.dag.nodes, Prefix(stored, fail))
    + Lookup(Rest(stored, fail, remaining), RestSource(stored, fail, remaining).dag.nodes)
  }

  function Splice(stored: PlannedLiveDag, fail: DagFailCursor, remaining: PlannedLiveDag): PlannedLiveDag
    requires Listed(stored)
  {
    var prefix, rest := Prefix(stored, fail), Rest(stored, fail, remaining);
    var order := prefix + rest;
    PlannedLiveDag(
      stored.dag.(nodes := RelinkAll(RawNodes(stored, fail, remaining), prefix, rest),
                  entry := if prefix == [] && order != [] then order[0] else stored.dag.entry),
      order, remaining.usedFallback, "repair", ResumeAt(stored, fail), remaining.graphTaskOverride)
  }

  // ---------------------------------------------------------------- the splice, step by step

  /** `next` rewritten on every node with the given id. */
  function SetNextAll(nodes: seq<DagNode>, id: string, next: Option<string>): (r: seq<DagNode>)
    ensures |r| == |nodes|
    ensures forall i :: 0 <= i < |nodes| ==> r[i] == if nodes[i].id == id then nodes[i].(next := next) else nodes[i]
  {
    seq(|nodes|, i requires 0 <= i < |nodes| => if nodes[i].id == id then nodes[i].(next := next) else nodes[i])
  }

  /** `next` rewritten on the first node with the given id. */
  function WithNext(nodes: seq<DagNode>, id: string, next: Option<string>): (r: seq<DagNode>)
    ensures |r| == |nodes|
  {
    if nodes == [] then []
    else if nodes[0].id == id then [nodes[0].(next := next)] + nodes[1..]
    else [nodes[0]] + WithNext(nodes[1..], id, next)
  }

  method SetNextFirst(nodes: seq<DagNode>, id: string, next: Option<string>) returns (r: seq<DagNode>)
    ensures r == WithNext(nodes, id, next)
  {
    hide WithNext;
    for i := 0 to |nodes|
      invariant WithNext(nodes, id, next) == nodes[..i] + WithNext(nodes[i..], id, next)
    {
      WithNextStep(nodes, i, id, next);
      if nodes[i].id == id {
        r := nodes[i := nodes[i].(next := next)];
        return;
      }
    }
    r := nodes;
  }

  lemma WithNextStep(nodes: seq<DagNode>, i: nat, id: string, next: Option<string>)
    requires i < |nodes|
    ensures var found := nodes[..i] + WithNext(nodes[i..], id, next);
            if nodes[i].id == id then found == nodes[i := nodes[i].(next := next)]
            else found == nodes[..i + 1] + WithNext(nodes[i + 1..], id, next)
  {
    assert nodes[i..][1..] == nodes[i + 1..];
    assert nodes[..i + 1] == nodes[..i] + [nodes[i]];
  }

  lemma SetNextSplit(nodes: seq<DagNode>, id: string, next: Option<string>)
    requires nodes != []
    ensures SetNextAll(nodes, id, next) == SetNextAll(nodes[..1], id, next) + SetNextAll(nodes[1..], id, next)
    ensures SetNextAll(nodes[..1], id, next) == [if nodes[0].id == id then nodes[0].(next := next) else nodes[0]]
  {
    hide SetNextAll;
    var all := SetNextAll(nodes, id, next);
    assert all[1..] == SetNextAll(nodes[1..], id, next);
    assert all == all[..1] + all[1..];
  }

  lemma SetNextElsewhere(nodes: seq<DagNode>, id: string, next: Option<string>)
    requires id !in Ids(nodes)
    ensures SetNextAll(nodes, id, next) == nodes
  {
    assert forall i :: 0 <= i < |nodes| ==> Ids(nodes)[i] in Ids(nodes);
  }

  lemma HeadApart(nodes: seq<DagNode>)
    requires nodes != [] && UniqueIds(nodes)
    ensures UniqueIds(nodes[1..]) && nodes[0].id !in Ids(nodes[1..])
  {
    hide Distinct;
    assert Ids(nodes) == [nodes[0].id] + Ids(nodes[1..]);
    DistinctParts([nodes[0].id], Ids(nodes[1..]));
  }

  lemma {:induction false} WithNextUnique(nodes: seq<DagNode>, id: string, next: Option<string>)
    requires UniqueIds(nodes)
    ensures WithNext(nodes, id, next) == SetNextAll(nodes, id, next)
  {
    if nodes != [] {
      hide UniqueIds, SetNextAll, Ids;
      HeadApart(nodes);
      SetNextSplit(nodes, id, next);
      if nodes[0].id == id {
        SetNextElsewhere(nodes[1..], id, next);
      } else {
        WithNextUnique(nodes[1..], id, next);
      }
    }
  }

  /** The last finished node, on every copy of it, linked to the first node behind it. */
  function Seamed(nodes: seq<DagNode>, prefix: seq<string>, rest: seq<string>): seq<DagNode>
  {
    if prefix != [] && rest != [] then SetNextAll(nodes, prefix[|prefix| - 1], Some(rest[0])) else nodes
  }

  /** The first `i` ids of the rest linked, each on the first node with its id. */
  function Chained(nodes: seq<DagNode>, rest: seq<string>, i: nat): seq<DagNode>
    requires i <= |rest|
  {
    if i == 0 then nodes
    else WithNext(Chained(nodes, rest, i - 1), rest[i - 1], if i < |rest| then Some(rest[i]) else None)
  }

  /** The stored nodes for the ids, skipping ids that are there already and ids without a node. */
  function Appended(kept: seq<DagNode>, ids: seq<string>, source: seq<DagNode>): seq<DagNode>
  {
    if ids == [] then kept
    else
      var n := |ids| - 1;
      var nodes := Appended(kept, ids[..n], source);
      if Find(nodes, ids[n]).Some? || Find(source, ids[n]).None? then nodes else nodes + [Find(source, ids[n]).value]
  }

  function Collected(stored: PlannedLiveDag, fail: DagFailCursor, remaining: PlannedLiveDag): seq<DagNode>
  {
    var kept := KeepNodes(stored.dag.nodes, Prefix(stored, fail));
    if KeepsStored(stored, fail, remaining) then Appended(kept, Rest(stored, fail, remaining), stored.dag.nodes)
    else kept + Lookup(Rest(stored, fail, remaining), remaining.dag.nodes)
  }

  /** What the steps yield for any two plans, also for orders that do not list their nodes. */
  function SpliceSteps(stored: PlannedLiveDag, fail: DagFailCursor, remaining: PlannedLiveDag): PlannedLiveDag
  {
    var prefix, rest := Prefix(stored, fail), Rest(stored, fail, remaining);
    var order := prefix + rest;
    PlannedLiveDag(
      stored.dag.(nodes := Chained(Seamed(Collected(stored, fail, remaining), prefix, rest), rest, |rest|),
                  entry := if prefix == [] && order != [] then order[0] else stored.dag.entry),
      order, remaining.usedFallback, "repair", ResumeAt(stored, fail), remaining.graphTaskOverride)
  }

  lemma {:induction false} AfterAt(s: seq<string>, i: nat)
    requires Distinct(s) && i < |s|
    ensures After(s, s[i]) == if i + 1 < |s| then Some(s[i + 1]) else None
    decreases |s|
  {
    if |s| >= 2 && i > 0 {
      assert s[0] != s[i];
      assert s == [s[0]] + s[1..];
      DistinctParts([s[0]], s[1..]);
      AfterAt(s[1..], i - 1);
    }
  }

  lemma PrefixApart(order: seq<string>, k: nat)
    requires Distinct(order) && k <= |order|
    ensures Distinct(order[..k]) && Distinct(order[k..])
    ensures forall v :: v in order[..k] ==> v !in order[k..]
    ensures order == order[..k] + order[k..]
  {
    assert order == order[..k] + order[k..];
    DistinctParts(order[..k], order[k..]);
  }

  /** The finished prefix and the rest share no id, and neither repeats one. */
  lemma PartsDistinct(stored: PlannedLiveDag, fail: DagFailCursor, remaining: PlannedLiveDag)
    requires Listed(stored) && Distinct(remaining.order)
    ensures Distinct(Prefix(stored, fail)) && Distinct(Rest(stored, fail, remaining))
    ensures forall v :: v in Prefix(stored, fail) ==> v !in Rest(stored, fail, remaining)
    ensures Distinct(Prefix(stored, fail) + Rest(stored, fail, remaining))
  {
    PrefixApart(stored.order, ResumeAt(stored, fail));
    DistinctParts(Prefix(stored, fail), Rest(stored, fail, remaining));
  }

  lemma {:induction false} KeepIds(nodes: seq<DagNode>, ids: seq<string>)
    requires UniqueIds(nodes)
    ensures UniqueIds(KeepNodes(nodes, ids))
    ensures forall v :: v in Ids(KeepNodes(nodes, ids)) <==> v in Ids(nodes) && v in ids
  {
    if nodes != [] {
      var k := |nodes| - 1;
      var init, last := nodes[..k], nodes[k];
      assert nodes == init + [last];
      assert Ids(nodes) == Ids(init) + [last.id];
      DistinctSnoc(Ids(init), last.id);
      KeepIds(init, ids);
      var kept := KeepNodes(init, ids);
      if last.id in ids {
        assert Ids(kept + [last]) == Ids(kept) + [last.id];
        DistinctSnoc(Ids(kept), last.id);
      } else {
        assert KeepNodes(nodes, ids) == kept;
      }
    }
  }

  /** The spliced graph has one node per id of the spliced order. */
  lemma RawListed(stored: PlannedLiveDag, fail: DagFailCursor, remaining: PlannedLiveDag)
    requires Listed(stored) && Distinct(remaining.order)
    ensures var raw := RawNodes(stored, fail, remaining);
            && UniqueIds(raw)
            && Ids(raw) == Ids(KeepNodes(stored.dag.nodes, Prefix(stored, fail))) + Rest(stored, fail, remaining)
            && forall v :: v in Ids(raw) <==> v in Prefix(stored, fail) || v in Rest(stored, fail, remaining)
  {
    RestKnown(stored, fail, remaining);
    OrderKnown(stored);
    ListedIds(stored);
    assert forall v :: v in Prefix(stored, fail) ==> v in stored.order;
    hide KeepNodes, Lookup, Rest, RestSource, Prefix, Listed, Distinct;
    var prefix, rest := Prefix(stored, fail), Rest(stored, fail, remaining);
    var nodes := RestSource(stored, fail, remaining).dag.nodes;
    var kept := KeepNodes(stored.dag.nodes, prefix);
    KeepIds(stored.dag.nodes, prefix);
    PartsDistinct(stored, fail, remaining);
    LookupIds(rest, nodes);
    IdsAppend(kept, Lookup(rest, nodes));
    DistinctParts(Ids(kept), rest);
  }

  lemma ListedIds(plan: PlannedLiveDag)
    requires Listed(plan)
    ensures UniqueIds(plan.dag.nodes)
  {
  }

  method SpliceRemainingPlan(stored: PlannedLiveDag, fail: DagFailCursor, remaining: PlannedLiveDag)
    returns (r: PlannedLiveDag)
    ensures r == SpliceSteps(stored, fail, remaining)
    ensures Listed(stored) && Listed(remaining) ==> r == Splice(stored, fail, remaining)
  {
    hide KeepNodes, Listed, Grafted, KeepsStored, Collected, Chained, Splice, Rest, SetNextAll;
    var resumeFrom := ResumeAt(stored, fail);
    var prefix := stored.order[..resumeFrom];
    var nodes := KeepNodes(stored.dag.nodes, prefix);
    var restOrder: seq<string>;
    restOrder, nodes := CollectRest(stored, fail, remaining, nodes);
    ghost var raw := nodes;
    if prefix != [] && restOrder != [] {
      for i := 0 to |nodes|
        invariant |nodes| == |raw|
        invariant forall k :: 0 <= k < i ==> nodes[k] == SetNextAll(raw, prefix[|prefix| - 1], Some(restOrder[0]))[k]
        invariant forall k :: i <= k < |raw| ==> nodes[k] == raw[k]
      {
        if nodes[i].id == prefix[|prefix| - 1] {
          nodes := nodes[i := nodes[i].(next := Some(restOrder[0]))];
        }
      }
    }
    assert nodes == Seamed(raw, prefix, restOrder);
    nodes := ChainRest(nodes, restOrder);
    var order := prefix + restOrder;
    var dag := stored.dag.(nodes := nodes);
    if prefix != [] {
      dag := dag.(entry := stored.dag.entry);
    } else if order != [] {
      dag := dag.(entry := order[0]);
    }
    r := PlannedLiveDag(dag, order, remaining.usedFallback, "repair", resumeFrom, remaining.graphTaskOverride);
    if Listed(stored) && Listed(remaining) {
      StepsAreSplice(stored, fail, remaining);
    }
  }

  lemma RawFacts(stored: PlannedLiveDag, fail: DagFailCursor, remaining: PlannedLiveDag)
    requires Listed(stored) && Listed(remaining)
    ensures UniqueIds(RawNodes(stored, fail, remaining)) && Distinct(Rest(stored, fail, remaining))
    ensures forall v :: v in Rest(stored, fail, remaining) ==> v in Ids(RawNodes(stored, fail, remaining))
  {
    RawListed(stored, fail, remaining);
    PartsDistinct(stored, fail, remaining);
  }

  /** The loop that links the ids behind the prefix into one chain. */
  method ChainRest(seamed: seq<DagNode>, rest: seq<string>) returns (nodes: seq<DagNode>)
    ensures nodes == Chained(seamed, rest, |rest|)
  {
    nodes := seamed;
    for i := 0 to |rest|
      invariant nodes == Chained(seamed, rest, i)
    {
      var nxt := if i + 1 < |rest| then Some(rest[i + 1]) else None;
      nodes := SetNextFirst(nodes, rest[i], nxt);
    }
  }

  lemma SetNextIds(nodes: seq<DagNode>, id: string, next: Option<string>)
    ensures Ids(SetNextAll(nodes, id, next)) == Ids(nodes)
  {
  }

  /** The nodes named in `ids` point at the id behind their own in `rest`; the others are as before. */
  ghost predicate Linked(before: seq<DagNode>, after: seq<DagNode>, ids: seq<string>, rest: seq<string>)
  {
    |after| == |before| && Ids(after) == Ids(before)
    && forall k :: 0 <= k < |before| ==>
         after[k] == if before[k].id in ids then before[k].(next := After(rest, before[k].id)) else before[k]
  }

  lemma LinkOne(nodes: seq<DagNode>, before: seq<DagNode>, ids: seq<string>, id: string, rest: seq<string>)
    requires Linked(nodes, before, ids, rest)
    ensures Linked(nodes, SetNextAll(before, id, After(rest, id)), ids + [id], rest)
  {
    hide After;
    SetNextIds(before, id, After(rest, id));
    assert forall k :: 0 <= k < |nodes| ==> Ids(before)[k] == Ids(nodes)[k];
  }

  lemma LinkedNone(nodes: seq<DagNode>, rest: seq<string>)
    ensures Linked(nodes, nodes, [], rest)
  {
    hide After;
  }

  lemma LinkedIds(nodes: seq<DagNode>, after: seq<DagNode>, ids: seq<string>, rest: seq<string>)
    requires Linked(nodes, after, ids, rest)
    ensures Ids(after) == Ids(nodes)
  {
    hide After;
  }

  lemma ChainedStep(nodes: seq<DagNode>, rest: seq<string>, i: nat)
    requires 0 < i <= |rest|
    ensures Chained(nodes, rest, i)
            == WithNext(Chained(nodes, rest, i - 1), rest[i - 1], if i < |rest| then Some(rest[i]) else None)
  {
  }

  lemma NoneChained(nodes: seq<DagNode>, rest: seq<string>)
    ensures Chained(nodes, rest, 0) == nodes
  {
  }

  /** With unique ids and no repetition in the rest, each linked node points at the id behind its own. */
  lemma {:induction false} ChainedNodes(nodes: seq<DagNode>, rest: seq<string>, i: nat)
    requires UniqueIds(nodes) && Distinct(rest) && i <= |rest|
    ensures Linked(nodes, Chained(nodes, rest, i), rest[..i], rest)
  {
    hide *;
    if i == 0 {
      NoneChained(nodes, rest);
      LinkedNone(nodes, rest);
      assert rest[..0] == [];
    } else {
      var before, id := Chained(nodes, rest, i - 1), rest[i - 1];
      ChainedNodes(nodes, rest, i - 1);
      ChainedStep(nodes, rest, i);
      LinkedIds(nodes, before, rest[..i - 1], rest);
      SameIdsUnique(before, nodes);
      AfterAt(rest, i - 1);
      WithNextUnique(before, id, After(rest, id));
      LinkOne(nodes, before, rest[..i - 1], id, rest);
      assert rest[..i] == rest[..i - 1] + [id];
    }
  }

  lemma CollectedIsRaw(stored: PlannedLiveDag, fail: DagFailCursor, remaining: PlannedLiveDag)
    requires Listed(stored)
    ensures Collected(stored, fail, remaining) == RawNodes(stored, fail, remaining)
  {
    hide KeepNodes, Listed, Grafted, Lookup, Appended, Prefix;
    RestKnown(stored, fail, remaining);
    if KeepsStored(stored, fail, remaining) {
      var rest := Rest(stored, fail, remaining);
      AppendedListed(stored, fail, rest, |rest|);
      assert rest[..|rest|] == rest;
    }
  }

  /** For plans whose order lists their nodes the steps yield the splice in closed form. */
  lemma StepsAreSplice(stored: PlannedLiveDag, fail: DagFailCursor, remaining: PlannedLiveDag)
    requires Listed(stored) && Listed(remaining)
    ensures SpliceSteps(stored, fail, remaining) == Splice(stored, fail, remaining)
  {
    hide Listed, UniqueIds, Collected, RawNodes, Rest, Prefix, Chained, After;
    var raw, prefix, rest := RawNodes(stored, fail, remaining), Prefix(stored, fail), Rest(stored, fail, remaining);
    RawFacts(stored, fail, remaining);
    CollectedIsRaw(stored, fail, remaining);
    ChainedIsRelinked(raw, prefix, rest);
  }

  lemma ChainedIsRelinked(raw: seq<DagNode>, prefix: seq<string>, rest: seq<string>)
    requires UniqueIds(raw) && Distinct(rest)
    ensures Chained(Seamed(raw, prefix, rest), rest, |rest|) == RelinkAll(raw, prefix, rest)
  {
    hide UniqueIds, After, Chained, Distinct;
    var seamed := Seamed(raw, prefix, rest);
    if prefix != [] && rest != [] {
      SetNextIds(raw, prefix[|prefix| - 1], Some(rest[0]));
    }
    SameIdsUnique(seamed, raw);
    ChainedNodes(seamed, rest, |rest|);
    assert rest[..|rest|] == rest;
  }

  lemma SameIdsUnique(a: seq<DagNode>, b: seq<DagNode>)
    requires Ids(a) == Ids(b) && UniqueIds(b)
    ensures UniqueIds(a)
  {
  }

  /** The loops that pick the nodes behind the prefix: replanned ones, else the stored remainder. */
  method CollectRest(stored: PlannedLiveDag, fail: DagFailCursor, remaining: PlannedLiveDag, kept: seq<DagNode>)
    returns (restOrder: seq<string>, nodes: seq<DagNode>)
    requires kept == KeepNodes(stored.dag.nodes, Prefix(stored, fail))
    ensures restOrder == Rest(stored, fail, remaining)
    ensures nodes == Collected(stored, fail, remaining)
  {
    hide KeepNodes, Grafted, Lookup;
    restOrder, nodes := GraftRemaining(remaining, Prefix(stored, fail), kept);
    if restOrder == [] {
      assert nodes == kept;
      restOrder := stored.order[ResumeAt(stored, fail)..];
      nodes := AppendStored(stored.dag.nodes, kept, restOrder);
    }
  }

  method GraftRemaining(remaining: PlannedLiveDag, prefix: seq<string>, kept: seq<DagNode>)
    returns (restOrder: seq<string>, nodes: seq<DagNode>)
    ensures restOrder == Grafted(remaining.order, remaining.dag.nodes, prefix)
    ensures nodes == kept + Lookup(restOrder, remaining.dag.nodes)
  {
    hide *;
    GraftingStarts(remaining, prefix, kept);
    restOrder, nodes := [], kept;
    for i := 0 to |remaining.order|
      invariant Grafting(remaining, prefix, kept, i, restOrder, nodes)
    {
      var id := remaining.order[i];
      GraftingStep(remaining, prefix, kept, i, restOrder, nodes);
      var node := Find(remaining.dag.nodes, id);
      if id !in prefix && node.Some? {
        restOrder := restOrder + [id];
        nodes := nodes + [node.value];
      }
    }
    GraftingEnds(remaining, prefix, kept, restOrder, nodes);
  }

  /** What the loop holds after `i` replanned ids. */
  ghost predicate Grafting(remaining: PlannedLiveDag, prefix: seq<string>, kept: seq<DagNode>, i: nat,
                           rest: seq<string>, nodes: seq<DagNode>)
  {
    i <= |remaining.order| && rest == Grafted(remaining.order[..i], remaining.dag.nodes, prefix)
    && nodes == kept + Lookup(rest, remaining.dag.nodes)
  }

  lemma GraftingStarts(remaining: PlannedLiveDag, prefix: seq<string>, kept: seq<DagNode>)
    ensures Grafting(remaining, prefix, kept, 0, [], kept)
  {
    GraftedNone(remaining.order[..0], remaining.dag.nodes, prefix);
  }

  lemma GraftingStep(remaining: PlannedLiveDag, prefix: seq<string>, kept: seq<DagNode>, i: nat,
                     rest: seq<string>, nodes: seq<DagNode>)
    requires Grafting(remaining, prefix, kept, i, rest, nodes) && i < |remaining.order|
    ensures var id, node := remaining.order[i], Find(remaining.dag.nodes, remaining.order[i]);
            if id in prefix || node.None? then Grafting(remaining, prefix, kept, i + 1, rest, nodes)
            else Grafting(remaining, prefix, kept, i + 1, rest + [id], nodes + [node.value])
  {
    hide Lookup, Ids, Grafted, Find;
    var id := remaining.order[i];
    assert remaining.order[..i + 1] == remaining.order[..i] + [id];
    GraftedSnoc(remaining.order[..i], id, remaining.dag.nodes, prefix);
    if id !in prefix && Find(remaining.dag.nodes, id).Some? {
      LookupSnoc(rest, id, remaining.dag.nodes);
    }
  }

  lemma GraftingEnds(remaining: PlannedLiveDag, prefix: seq<string>, kept: seq<DagNode>, rest: seq<string>, nodes: seq<DagNode>)
    requires Grafting(remaining, prefix, kept, |remaining.order|, rest, nodes)
    ensures rest == Grafted(remaining.order, remaining.dag.nodes, prefix) && nodes == kept + Lookup(rest, remaining.dag.nodes)
  {
    hide Lookup, Grafted;
    assert remaining.order[..|remaining.order|] == remaining.order;
  }

  lemma GraftedNone(ids: seq<string>, nodes: seq<DagNode>, finished: seq<string>)
    requires ids == []
    ensures Grafted(ids, nodes, finished) == [] && Lookup([], nodes) == []
  {
  }

  lemma GraftedSnoc(ids: seq<string>, id: string, nodes: seq<DagNode>, finished: seq<string>)
    ensures Grafted(ids + [id], nodes, finished)
         == if id in finished || Find(nodes, id).None? then Grafted(ids, nodes, finished) else Grafted(ids, nodes, finished) + [id]
    ensures Find(nodes, id).Some? <==> id in Ids(nodes)
  {
    assert (ids + [id])[..|ids|] == ids;
  }

  lemma LookupSnoc(ids: seq<string>, id: string, nodes: seq<DagNode>)
    requires (forall v :: v in ids ==> v in Ids(nodes)) && id in Ids(nodes)
    ensures forall v :: v in ids + [id] ==> v in Ids(nodes)
    ensures Lookup(ids + [id], nodes) == Lookup(ids, nodes) + [Find(nodes, id).value]
  {
  }

  method AppendStored(source: seq<DagNode>, kept: seq<DagNode>, rest: seq<string>) returns (nodes: seq<DagNode>)
    ensures nodes == Appended(kept, rest, source)
  {
    hide Find;
    nodes := kept;
    for i := 0 to |rest|
      invariant nodes == Appended(kept, rest[..i], source)
    {
      assert rest[..i + 1][..i] == rest[..i];
      if Find(nodes, rest[i]).Some? {
        continue;
      }
      var node := Find(source, rest[i]);
      if node.Some? {
        nodes := nodes + [node.value];
      }
    }
    assert rest[..|rest|] == rest;
  }

  lemma AppendedSnoc(kept: seq<DagNode>, ids: seq<string>, id: string, source: seq<DagNode>)
    ensures var nodes := Appended(kept, ids, source);
            Appended(kept, ids + [id], source)
            == if Find(nodes, id).Some? || Find(source, id).None? then nodes else nodes + [Find(source, id).value]
  {
    hide Find;
    assert (ids + [id])[..|ids|] == ids;
  }

  lemma StoredIdsKnown(stored: PlannedLiveDag, fail: DagFailCursor)
    requires Listed(stored)
    ensures forall v :: v in stored.order[ResumeAt(stored, fail)..] ==> v in Ids(stored.dag.nodes)
  {
    hide Listed, Ids;
    OrderKnown(stored);
    assert forall v :: v in stored.order[ResumeAt(stored, fail)..] ==> v in stored.order;
  }

  lemma {:induction false} AppendedListed(stored: PlannedLiveDag, fail: DagFailCursor, rest: seq<string>, i: nat)
    requires Listed(stored) && rest == stored.order[ResumeAt(stored, fail)..] && i <= |rest|
    ensures (forall v :: v in rest[..i] ==> v in Ids(stored.dag.nodes))
            && Appended(KeepNodes(stored.dag.nodes, Prefix(stored, fail)), rest[..i], stored.dag.nodes)
               == KeepNodes(stored.dag.nodes, Prefix(stored, fail)) + Lookup(rest[..i], stored.dag.nodes)
  {
    hide *;
    var kept, nodes := KeepNodes(stored.dag.nodes, Prefix(stored, fail)), stored.dag.nodes;
    StoredIdsKnown(stored, fail);
    if i == 0 {
      NothingLookedUp(nodes);
      NothingAppended(kept, nodes);
      assert rest[..0] == [] && kept + [] == kept;
    } else {
      AppendedListed(stored, fail, rest, i - 1);
      var ids, id := rest[..i - 1], rest[i - 1];
      assert rest[..i] == ids + [id] && id in rest;
      AppendedSnoc(kept, ids, id, nodes);
      NotYetPresent(stored, fail, Appended(kept, ids, nodes), rest, i - 1);
      LookupSnoc(ids, id, nodes);
      assert kept + Lookup(ids, nodes) + [Find(nodes, id).value] == kept + (Lookup(ids, nodes) + [Find(nodes, id).value]);
    }
  }

  lemma NothingAppended(kept: seq<DagNode>, source: seq<DagNode>)
    ensures Appended(kept, [], source) == kept
  {
  }

  lemma NothingLookedUp(nodes: seq<DagNode>)
    ensures Lookup([], nodes) == []
  {
  }

  lemma OrderKnown(plan: PlannedLiveDag)
    requires Listed(plan)
    ensures forall v :: v in plan.order <==> v in Ids(plan.dag.nodes)
  {
    forall v
      ensures v in plan.order <==> v in Ids(plan.dag.nodes)
    {
      assert v in plan.order <==> v in Elements(plan.order);
      assert v in Ids(plan.dag.nodes) <==> v in Elements(Ids(plan.dag.nodes));
    }
  }

  lemma LookupIds(ids: seq<string>, nodes: seq<DagNode>)
    requires forall v :: v in ids ==> v in Ids(nodes)
    ensures Ids(Lookup(ids, nodes)) == ids
  {
  }

  lemma NotYetPresent(stored: PlannedLiveDag, fail: DagFailCursor, nodes: seq<DagNode>, rest: seq<string>, i: nat)
    requires Listed(stored) && rest == stored.order[ResumeAt(stored, fail)..] && i < |rest|
    requires forall v :: v in rest ==> v in Ids(stored.dag.nodes)
    requires nodes == KeepNodes(stored.dag.nodes, Prefix(stored, fail)) + Lookup(rest[..i], stored.dag.nodes)
    ensures rest[i] !in Ids(nodes)
  {
    hide KeepNodes, Lookup;
    PrefixApart(stored.order, ResumeAt(stored, fail));
    var kept := KeepNodes(stored.dag.nodes, Prefix(stored, fail));
    var tail := Lookup(rest[..i], stored.dag.nodes);
    IdsAppend(kept, tail);
    LookupIds(rest[..i], stored.dag.nodes);
    KeepIds(stored.dag.nodes, Prefix(stored, fail));
    assert rest[i] in rest;
  }
}
