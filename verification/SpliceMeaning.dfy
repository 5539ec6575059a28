/**
 What a splice is, field by field, without the functions that build it: which ids it keeps and which it takes from the
 replan, in which order, from which plan each node comes, and what of a node is rewritten.
 */
module SpliceMeaning {
  import opened Wrappers
  import opened Digraph
  import opened TaskGraph
  import opened RepairSplice
  import opened SpliceSchedule

  /** The replan names nothing that is not finished already. */
  ghost predicate NothingNew(stored: PlannedLiveDag, k: nat, remaining: PlannedLiveDag)
    requires k <= |stored.order|
  {
    forall v :: v in remaining.order ==> v in stored.order[..k]
  }

  lemma KeepsStoredMeans(stored: PlannedLiveDag, fail: DagFailCursor, remaining: PlannedLiveDag)
    requires Listed(remaining)
    ensures var k := if fail.index < |stored.order| then fail.index else |stored.order|;
            KeepsStored(stored, fail, remaining) <==> NothingNew(stored, k, remaining)
  {
    OrderKnown(remaining);
    hide Listed, Grafted;
    var added := Grafted(remaining.order, remaining.dag.nodes, Prefix(stored, fail));
    if added == [] {
      forall v | v in remaining.order
        ensures v in Prefix(stored, fail)
      {
        assert v !in added;
      }
    } else {
      assert added[0] in added;
    }
  }

  /** Everything but nodes and order. */
  lemma SplicedHeader(stored: PlannedLiveDag, fail: DagFailCursor, remaining: PlannedLiveDag)
    requires Listed(stored) && Listed(remaining)
    ensures var r := Splice(stored, fail, remaining);
            var k := if fail.index < |stored.order| then fail.index else |stored.order|;
            && r.dag.schemaVersion == stored.dag.schemaVersion && r.dag.id == stored.dag.id
            && r.dag.description == stored.dag.description && r.dag.maxSteps == stored.dag.maxSteps
            && r.dag.timeoutSecs == stored.dag.timeoutSecs
            && (k > 0 || r.order == [] ==> r.dag.entry == stored.dag.entry)
            && (k == 0 && r.order != [] ==> r.dag.entry == r.order[0])
            && r.usedFallback == remaining.usedFallback && r.source == "repair" && r.resumeFrom == k
            && r.graphTaskOverride == remaining.graphTaskOverride
  {
    hide Listed, RawNodes, Rest;
  }

  /** The finished ids stay; behind them come the new ids of the replan in its order, or the stored ones if there are none. */
  lemma SplicedOrderMeaning(stored: PlannedLiveDag, fail: DagFailCursor, remaining: PlannedLiveDag)
    requires Listed(stored) && Listed(remaining)
    ensures var order := Splice(stored, fail, remaining).order;
            var k := if fail.index < |stored.order| then fail.index else |stored.order|;
            && Distinct(order) && k <= |order| && order[..k] == stored.order[..k]
            && (NothingNew(stored, k, remaining) ==> order == stored.order)
            && (!NothingNew(stored, k, remaining) ==>
                && (forall v :: v in order[k..] <==> v in remaining.order && v !in stored.order[..k])
                && (forall u, v :: u in order[k..] && v in order[k..] && Before(remaining.order, u, v) ==> Before(order[k..], u, v)))
  {
    KeepsStoredMeans(stored, fail, remaining);
    SplicedOrder(stored, fail, remaining);
    OrderKnown(remaining);
    hide Listed, Splice, Grafted, Before, Distinct, NothingNew;
    var order, k := Splice(stored, fail, remaining).order, ResumeAt(stored, fail);
    assert order[..k] == Prefix(stored, fail) && order[k..] == Rest(stored, fail, remaining);
    if KeepsStored(stored, fail, remaining) {
      assert order == stored.order;
    } else {
      forall u, v | u in order[k..] && v in order[k..] && Before(remaining.order, u, v)
        ensures Before(order[k..], u, v)
      {
        RestKeepsOrder(stored, fail, remaining, u, v);
      }
    }
  }

  /** The node list: the finished nodes in their old order, then the others in the order they are to run. */
  lemma SplicedNodeList(stored: PlannedLiveDag, fail: DagFailCursor, remaining: PlannedLiveDag)
    requires Listed(stored) && Listed(remaining)
    ensures var r := Splice(stored, fail, remaining);
            var ids := Ids(r.dag.nodes);
            var k := if fail.index < |stored.order| then fail.index else |stored.order|;
            && Distinct(ids) && |ids| == |r.order| && k <= |ids| && ids[k..] == r.order[k..]
            && (forall v :: v in ids[..k] <==> v in stored.order[..k])
            && (forall u, v :: u in ids[..k] && v in ids[..k] && Before(Ids(stored.dag.nodes), u, v) ==> Before(ids[..k], u, v))
  {
    var r, k := Splice(stored, fail, remaining), ResumeAt(stored, fail);
    var prefix, rest := Prefix(stored, fail), Rest(stored, fail, remaining);
    var kept := KeepNodes(stored.dag.nodes, prefix);
    RawListed(stored, fail, remaining);
    SplicedOrder(stored, fail, remaining);
    ListedIds(stored);
    KeepIds(stored.dag.nodes, prefix);
    OrderKnown(stored);
    assert Ids(r.dag.nodes) == Ids(kept) + rest;
    assert forall v :: v in prefix ==> v in stored.order;
    hide Listed, Splice, KeepNodes, Prefix, Rest, ResumeAt, RawNodes, Before;
    KeptSize(Ids(kept), prefix);
    assert Ids(r.dag.nodes)[..|prefix|] == Ids(kept) && Ids(r.dag.nodes)[|prefix|..] == rest;
    forall u, v | u in Ids(kept) && v in Ids(kept) && Before(Ids(stored.dag.nodes), u, v)
      ensures Before(Ids(kept), u, v)
    {
      KeptIdsInOrder(stored.dag.nodes, prefix, u, v);
    }
    PrefixSize(stored, fail);
    assert r.order[k..] == rest;
  }

  lemma PrefixSize(stored: PlannedLiveDag, fail: DagFailCursor)
    ensures |Prefix(stored, fail)| == ResumeAt(stored, fail)
    ensures ResumeAt(stored, fail) == if fail.index < |stored.order| then fail.index else |stored.order|
    ensures Prefix(stored, fail) == stored.order[..ResumeAt(stored, fail)]
  {
  }

  lemma KeptSize(a: seq<string>, b: seq<string>)
    requires Distinct(a) && Distinct(b) && forall v :: v in a <==> v in b
    ensures |a| == |b|
  {
    DistinctSize(a);
    DistinctSize(b);
    assert Elements(a) == Elements(b);
  }

  lemma {:induction false} KeptInOrder(nodes: seq<DagNode>, ids: seq<string>, k: nat, i: nat, j: nat) returns (a: nat, b: nat)
    requires i < j < k <= |nodes| && nodes[i].id in ids && nodes[j].id in ids
    ensures var kept := KeepNodes(nodes[..k], ids); a < b < |kept| && kept[a] == nodes[i] && kept[b] == nodes[j]
    decreases k
  {
    hide *;
    KeepLast(nodes, ids, k);
    if j < k - 1 {
      a, b := KeptInOrder(nodes, ids, k - 1, i, j);
    } else {
      a := KeptAt(nodes, ids, k - 1, i);
      b := |KeepNodes(nodes[..k - 1], ids)|;
    }
  }

  lemma KeptAt(nodes: seq<DagNode>, ids: seq<string>, k: nat, i: nat) returns (a: nat)
    requires i < k <= |nodes| && nodes[i].id in ids
    ensures a < |KeepNodes(nodes[..k], ids)| && KeepNodes(nodes[..k], ids)[a] == nodes[i]
  {
    hide KeepNodes;
    var kept := KeepNodes(nodes[..k], ids);
    assert nodes[..k][i] in kept;
    a :| 0 <= a < |kept| && kept[a] == nodes[i];
  }

  lemma KeepLast(nodes: seq<DagNode>, ids: seq<string>, k: nat)
    requires 0 < k <= |nodes|
    ensures var kept := KeepNodes(nodes[..k - 1], ids);
            KeepNodes(nodes[..k], ids) == if nodes[k - 1].id in ids then kept + [nodes[k - 1]] else kept
  {
    assert nodes[..k][..k - 1] == nodes[..k - 1];
  }

  lemma KeptIdsInOrder(nodes: seq<DagNode>, ids: seq<string>, u: string, v: string)
    requires u in ids && v in ids && Before(Ids(nodes), u, v)
    ensures Before(Ids(KeepNodes(nodes, ids)), u, v)
  {
    hide KeepNodes;
    var i, j :| 0 <= i < j < |nodes| && Ids(nodes)[i] == u && Ids(nodes)[j] == v;
    var a, b := KeptInOrder(nodes, ids, |nodes|, i, j);
    assert nodes[..|nodes|] == nodes;
    var kept := Ids(KeepNodes(nodes, ids));
    assert kept[a] == u && kept[b] == v;
  }

  /** The id behind position `i` once the seam and the rest are linked, where `k` ids are finished. */
  ghost function LinkedTo(n: DagNode, order: seq<string>, k: nat, i: nat): Option<string>
    requires i < |order|
  {
    if i + 1 < k || (i + 1 == k && k == |order|) then n.next
    else if i + 1 < |order| then Some(order[i + 1])
    else None
  }

  /**
   Each node comes from the plan its id comes from. Only `next` is rewritten: the last finished node and all behind it point
   at the next id of the order, and the last one at nothing.
   */
  lemma SplicedNodeMeaning(stored: PlannedLiveDag, fail: DagFailCursor, remaining: PlannedLiveDag, i: nat)
    requires Listed(stored) && Listed(remaining) && i < |Splice(stored, fail, remaining).order|
    ensures var r := Splice(stored, fail, remaining);
            var k := if fail.index < |stored.order| then fail.index else |stored.order|;
            var source := if i < k || NothingNew(stored, k, remaining) then stored else remaining;
            exists n :: n in source.dag.nodes && n.id == r.order[i] && n.(next := LinkedTo(n, r.order, k, i)) in r.dag.nodes
  {
    KeepsStoredMeans(stored, fail, remaining);
    SplicedOrder(stored, fail, remaining);
    var r, id := Splice(stored, fail, remaining), Splice(stored, fail, remaining).order[i];
    SplicedNodes(stored, fail, remaining, id);
    PrefixSize(stored, fail);
    hide Listed, Splice, Prefix, ResumeAt, NothingNew, KeepsStored, LinkedTo, Relink, ById, Rest, UniqueIds;
    var k := ResumeAt(stored, fail);
    var prefix, rest := Prefix(stored, fail), Rest(stored, fail, remaining);
    Side(prefix, rest, i);
    var n := Origin(stored, fail, remaining, id).value;
    LinkAt(n, prefix, rest, i);
    assert n.(next := LinkedTo(n, r.order, k, i)) == ById(r.dag.nodes)[id];
    assert ById(r.dag.nodes)[id] in r.dag.nodes;
    assert n in (if i < k || KeepsStored(stored, fail, remaining) then stored else remaining).dag.nodes;
  }

  lemma Side(prefix: seq<string>, rest: seq<string>, i: nat)
    requires i < |prefix| + |rest| && forall v :: v in prefix ==> v !in rest
    ensures (prefix + rest)[i] in rest <==> i >= |prefix|
  {
    if i < |prefix| {
      assert prefix[i] in prefix;
    } else {
      assert rest[i - |prefix|] in rest;
    }
  }

  lemma LinkAt(n: DagNode, prefix: seq<string>, rest: seq<string>, i: nat)
    requires Distinct(prefix + rest) && i < |prefix| + |rest| && n.id == (prefix + rest)[i]
    ensures Relink(n, prefix, rest) == n.(next := LinkedTo(n, prefix + rest, |prefix|, i))
  {
    hide After;
    DistinctParts(prefix, rest);
    Side(prefix, rest, i);
    if i >= |prefix| {
      AfterAt(rest, i - |prefix|);
    } else {
      assert n.id == prefix[i];
      assert n.id == prefix[|prefix| - 1] ==> i == |prefix| - 1;
    }
  }
}
