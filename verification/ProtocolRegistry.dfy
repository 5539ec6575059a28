/** Logical model ids, and the registry that merges the entries of many manifests under them. */
module ProtocolRegistry {
  import opened Wrappers
  import opened Text
  import opened KeyOrder

  // ---------------------------------------------------------------- logical ids

  /** `provider/wire`, unless one part is missing or the key carries the provider already. */
  function ComposeLogicalModelId(providerId: string, wireOrKey: string): string
  {
    var p, w := Trim(providerId), Trim(wireOrKey);
    if p == "" then w
    else if w == "" then p
    else if w == p || p + "/" <= w then w
    else p + "/" + w
  }

  /** The wire id survives at the end of the composed id, and the provider leads it; nothing else is added. */
  lemma ComposeKeepsWire(providerId: string, wireOrKey: string)
    ensures var p, w, id := Trim(providerId), Trim(wireOrKey), ComposeLogicalModelId(providerId, wireOrKey);
            && (w != "" ==> |id| >= |w| && id[|id| - |w|..] == w)
            && (w == "" ==> id == p) && (p == "" ==> id == w)
            && (p != "" && w != "" ==> if w == p || p + "/" <= w then id == w else id == p + "/" + w)
  {
    hide Trim;
  }

  function Scheme(): string
  {
    "protocol:"
  }

  function BeforeSlash(s: string): string
  {
    var slash := FindFirst(s, "/");
    if slash.Some? then s[..slash.value] else s
  }

  function WithoutScheme(raw: string): string
  {
    var t := Trim(raw);
    if Scheme() <= t then Trim(t[|Scheme()|..]) else t
  }

  function ProviderIdFromLogical(raw: string): string
  {
    BeforeSlash(WithoutScheme(raw))
  }

  lemma TrimIsTrimmed(s: string)
    ensures Trimmed(Trim(s))
  {
    hide Trim, Trimmed;
    var a, b := TrimParts(s);
  }

  lemma TrimOfTrimmed(s: string)
    requires Trimmed(s)
    ensures Trim(s) == s
  {
    hide TrimStart, TrimEnd, Trimmed;
    NothingToTrim(s);
  }

  /** A composed id is the provider alone, or the provider in front of a slash. */
  predicate LeadsWith(id: string, p: string)
  {
    id == p || p + "/" <= id
  }

  lemma ComposeLeads(providerId: string, wireOrKey: string)
    requires Trim(providerId) != ""
    ensures var id := ComposeLogicalModelId(providerId, wireOrKey);
            LeadsWith(id, Trim(providerId)) && Trimmed(id)
  {
    hide Trim;
    TrimIsTrimmed(providerId);
    TrimIsTrimmed(wireOrKey);
  }

  lemma FirstSlash(s: string)
    ensures var slash := FindFirst(s, "/");
            if slash.Some? then slash.value < |s| && s[slash.value] == '/' && '/' !in s[..slash.value] else '/' !in s
  {
    hide FindFirst;
    var slash := FindFirst(s, "/");
    forall i | 0 <= i < |s| && s[i] == '/'
      ensures OccursAt(s, "/", i)
    {
      assert s[i..i + 1] == "/";
    }
    if slash.Some? {
      assert s[slash.value..slash.value + 1][0] == '/';
    }
  }

  lemma BeforeSlashClean(s: string)
    ensures '/' !in BeforeSlash(s)
  {
    hide FindFirst;
    FirstSlash(s);
  }

  lemma BeforeSlashIs(s: string, p: string)
    requires LeadsWith(s, p) && '/' !in p
    ensures BeforeSlash(s) == p
  {
    hide FindFirst;
    FirstSlash(s);
    if p + "/" <= s {
      SlashAt(s, p, FindFirst(s, "/"));
    }
  }

  lemma SlashAt(s: string, p: string, slash: Option<nat>)
    requires p + "/" <= s && '/' !in p
    requires if slash.Some? then slash.value < |s| && s[slash.value] == '/' && '/' !in s[..slash.value] else '/' !in s
    ensures slash == Some(|p|)
  {
    assert s[|p|] == (p + "/")[|p|] == '/';
    assert forall i :: 0 <= i < |p| ==> p[i] == (p + "/")[i] == s[i];
    if slash.Some? {
      var front := s[..slash.value];
      assert forall i :: 0 <= i < |front| ==> front[i] == s[i] && front[i] in front;
    }
  }

  /** Without a slash in the provider, only a provider that starts with the scheme makes an id start with it. */
  lemma NoScheme(id: string, p: string)
    requires LeadsWith(id, p) && Scheme() <= id
    ensures Scheme() <= p
  {
    if id != p {
      SchemeHasNoSlash(id, p);
    }
    if |p| >= |Scheme()| {
      assert p == id[..|p|];
      assert Scheme() == id[..|Scheme()|] == p[..|Scheme()|];
    }
  }

  lemma SchemeHasNoSlash(id: string, p: string)
    requires p + "/" <= id && Scheme() <= id
    ensures |p| >= |Scheme()|
  {
    assert id[|p|] == (p + "/")[|p|] == '/';
    assert forall i :: 0 <= i < |Scheme()| ==> id[i] == Scheme()[i];
  }

  /** Behind the scheme, too little is left of the provider. */
  lemma SchemeShortens(id: string, p: string)
    requires LeadsWith(id, p) && Scheme() <= p && '/' !in p
    ensures |BeforeSlash(Trim(id[|Scheme()|..]))| < |p|
  {
    hide Trim, FindFirst, IsWhite, AllWhite, Trimmed;
    var tail, q := id[|Scheme()|..], p[|Scheme()|..];
    var a, b := TrimParts(tail);
    var t := Trim(tail);
    FirstSlash(t);
    if id == p {
      assert |t| <= |tail|;
    } else {
      TailLeads(id, p);
      SlashKept(q, tail, a, t, b);
    }
  }

  lemma TailLeads(id: string, p: string)
    requires p + "/" <= id && Scheme() <= p
    ensures p[|Scheme()|..] + "/" <= id[|Scheme()|..]
  {
    hide Scheme;
    assert p + "/" == id[..|p| + 1];
    assert (p + "/")[|Scheme()|..] == p[|Scheme()|..] + "/";
  }

  lemma WhiteIsNoSlash(s: string, i: nat)
    requires AllWhite(s) && i < |s|
    ensures s[i] != '/'
  {
  }

  lemma SlashKept(q: string, tail: string, a: string, t: string, b: string)
    requires q + "/" <= tail && tail == a + t + b && AllWhite(a) && AllWhite(b)
    ensures |BeforeSlash(t)| <= |q|
  {
    hide FindFirst, AllWhite;
    FirstSlash(t);
    assert tail[|q|] == (q + "/")[|q|] == '/';
    if |q| < |a| {
      assert a[|q|] == tail[|q|];
      WhiteIsNoSlash(a, |q|);
    } else if |q| < |a| + |t| {
      var i := |q| - |a|;
      assert t[i] == tail[|q|];
      var slash := FindFirst(t, "/");
      assert slash.Some? ==> forall k :: 0 <= k < slash.value ==> t[k] in t[..slash.value];
    }
  }

  lemma BeforeSlashEmpty(s: string)
    ensures BeforeSlash(s) == "" <==> s == "" || s[0] == '/'
  {
    hide FindFirst;
    FirstSlash(s);
    var slash := FindFirst(s, "/");
    assert slash.Some? && slash.value > 0 ==> s[..slash.value][0] == s[0];
  }

  /**
   Composing an id and reading the provider back gives the provider exactly when it has no slash and no scheme.
   Without a provider nothing is read back exactly when nothing, or a slash, leads the wire id behind its scheme.
   */
  lemma ProviderRoundTripExact(providerId: string, wireOrKey: string)
    ensures var p, read := Trim(providerId), ProviderIdFromLogical(ComposeLogicalModelId(providerId, wireOrKey));
            read == p <==> if p != "" then '/' !in p && !(Scheme() <= p)
                           else var w := WithoutScheme(wireOrKey); w == "" || w[0] == '/'
  {
    hide Trim, BeforeSlash, LeadsWith, Trimmed, Scheme, ComposeLogicalModelId, WithoutScheme;
    if Trim(providerId) != "" {
      GivenProvider(providerId, wireOrKey);
    } else {
      NoProvider(providerId, wireOrKey);
      BeforeSlashEmpty(WithoutScheme(wireOrKey));
    }
  }

  lemma NoProvider(providerId: string, wireOrKey: string)
    requires Trim(providerId) == ""
    ensures WithoutScheme(ComposeLogicalModelId(providerId, wireOrKey)) == WithoutScheme(wireOrKey)
  {
    hide Trim, Trimmed;
    TrimIsTrimmed(wireOrKey);
    TrimOfTrimmed(Trim(wireOrKey));
  }

  lemma GivenProvider(providerId: string, wireOrKey: string)
    requires Trim(providerId) != ""
    ensures var p := Trim(providerId);
            ProviderIdFromLogical(ComposeLogicalModelId(providerId, wireOrKey)) == p
            <==> '/' !in p && !(Scheme() <= p)
  {
    hide Trim, BeforeSlash, LeadsWith, Trimmed, Scheme, ComposeLogicalModelId;
    var p, id := Trim(providerId), ComposeLogicalModelId(providerId, wireOrKey);
    ComposeLeads(providerId, wireOrKey);
    TrimOfTrimmed(id);
    var read := WithoutScheme(id);
    BeforeSlashClean(read);
    if '/' !in p {
      if Scheme() <= p {
        SchemeLeads(id, p);
        SchemeShortens(id, p);
      } else {
        if Scheme() <= id {
          NoScheme(id, p);
        }
        BeforeSlashIs(id, p);
      }
    }
  }

  /** A provider with a slash, or with the scheme in front, is read back short, whatever it is composed with. */
  lemma ProviderIsCut(wireOrKey: string)
    ensures ProviderIdFromLogical(ComposeLogicalModelId("a/b", wireOrKey)) == "a"
    ensures ProviderIdFromLogical(ComposeLogicalModelId("protocol:a", wireOrKey)) == "a"
  {
    hide Trim, BeforeSlash, FindFirst, IsWhite, ComposeLogicalModelId, Trimmed;
    assert Trim("a/b") == "a/b" && Trim("protocol:a") == "protocol:a" by {
      PlainIsTrimmed();
    }
    var slashed, schemed := ComposeLogicalModelId("a/b", wireOrKey), ComposeLogicalModelId("protocol:a", wireOrKey);
    ComposeLeads("a/b", wireOrKey);
    TrimOfTrimmed(slashed);
    LeadsShorter(slashed);
    if Scheme() <= slashed {
      NoScheme(slashed, "a");
    }
    BeforeSlashIs(slashed, "a");
    ComposeLeads("protocol:a", wireOrKey);
    TrimOfTrimmed(schemed);
    BehindScheme(schemed);
    BeforeSlashIs(WithoutScheme(schemed), "a");
  }

  lemma PlainIsTrimmed()
    ensures Trim("a/b") == "a/b" && Trim("protocol:a") == "protocol:a"
  {
    hide TrimStart, TrimEnd;
    NothingToTrim("a/b");
    NothingToTrim("protocol:a");
  }

  lemma LeadsShorter(id: string)
    requires LeadsWith(id, "a/b")
    ensures LeadsWith(id, "a")
  {
    assert id[..2] == "a/";
  }

  lemma BehindScheme(id: string)
    requires LeadsWith(id, "protocol:a") && Trimmed(id) && Trim(id) == id
    ensures LeadsWith(WithoutScheme(id), "a")
  {
    hide Trim, IsWhite;
    var tail := id[|Scheme()|..];
    assert id[..10] == "protocol:a" && Scheme() <= id && tail[0] == 'a';
    assert id != "protocol:a" ==> id[..11] == "protocol:a/" && tail[..2] == "a/";
    AIsNotWhite();
    assert Trimmed(tail);
    TrimOfTrimmed(tail);
  }

  lemma AIsNotWhite()
    ensures !IsWhite('a')
  {
  }

  lemma SchemeLeads(id: string, p: string)
    requires LeadsWith(id, p) && Scheme() <= p
    ensures Scheme() <= id
  {
    hide Scheme;
    if id != p {
      assert p == id[..|p + "/"|][..|p|];
      assert Scheme() == p[..|Scheme()|] == id[..|Scheme()|];
    }
  }

  /** Composing again adds no second prefix. */
  lemma ComposeIdempotent(providerId: string, wireOrKey: string)
    ensures var id := ComposeLogicalModelId(providerId, wireOrKey);
            ComposeLogicalModelId(providerId, id) == id
  {
    hide Trim, Trimmed;
    TrimIsTrimmed(wireOrKey);
    if Trim(providerId) != "" {
      ComposeLeads(providerId, wireOrKey);
    }
    TrimOfTrimmed(ComposeLogicalModelId(providerId, wireOrKey));
  }

  // ---------------------------------------------------------------- the registry

  datatype ModelInfo = ModelInfo(logicalId: string, provider: string, sourceFile: string, contextWindow: Option<nat>)

  function IndexOf(models: seq<ModelInfo>, id: string): (r: Option<nat>)
    ensures r.Some? ==> r.value < |models| && models[r.value].logicalId == id
                        && forall i :: 0 <= i < r.value ==> models[i].logicalId != id
    ensures r.None? ==> forall i :: 0 <= i < |models| ==> models[i].logicalId != id
  {
    if models == [] then None
    else if models[0].logicalId == id then Some(0)
    else
      var r := IndexOf(models[1..], id);
      if r.Some? then Some(r.value + 1) else None
  }

  function Either<T>(a: Option<T>, b: Option<T>): Option<T>
  {
    if a.Some? then a else b
  }

  function Upserted(models: seq<ModelInfo>, entry: ModelInfo): seq<ModelInfo>
  {
    var at := IndexOf(models, entry.logicalId);
    if at.None? then models + [entry]
    else
      var existing := models[at.value];
      models[at.value := existing.(contextWindow := Either(existing.contextWindow, entry.contextWindow))]
  }

  class Registry {
    var models: seq<ModelInfo>

    constructor ()
      ensures models == []
    {
      models := [];
    }

    method UpsertModel(entry: ModelInfo)
      modifies this
      ensures models == Upserted(old(models), entry)
    {
      hide IndexOf;
      var i := 0;
      while i < |models|
        invariant 0 <= i <= |models| && models == old(models)
        invariant forall k :: 0 <= k < i ==> models[k].logicalId != entry.logicalId
      {
        if models[i].logicalId == entry.logicalId {
          FoundAt(models, entry.logicalId, i);
          if models[i].contextWindow.None? {
            models := models[i := models[i].(contextWindow := entry.contextWindow)];
          } else {
            assert models[i := models[i]] == models;
          }
          return;
        }
        i := i + 1;
      }
      NotFoundIn(models, entry.logicalId);
      models := models + [entry];
    }
  }

  lemma FoundAt(models: seq<ModelInfo>, id: string, i: nat)
    requires i < |models| && models[i].logicalId == id
    requires forall k :: 0 <= k < i ==> models[k].logicalId != id
    ensures IndexOf(models, id) == Some(i)
  {
    hide IndexOf;
  }

  lemma NotFoundIn(models: seq<ModelInfo>, id: string)
    requires forall k :: 0 <= k < |models| ==> models[k].logicalId != id
    ensures IndexOf(models, id) == None
  {
    hide IndexOf;
  }

  // ---------------------------------------------------------------- the closed form of a scan

  /** Where each logical id is mentioned first, in order. */
  function FirstIndices(entries: seq<ModelInfo>): (at: seq<nat>)
    ensures forall k :: 0 <= k < |at| ==> at[k] < |entries|
  {
    if entries == [] then []
    else
      var n := |entries| - 1;
      FirstIndices(entries[..n]) + if IndexOf(entries[..n], entries[n].logicalId).None? then [n] else []
  }

  /** The first known context window among the entries for the id. */
  function FirstWindow(entries: seq<ModelInfo>, id: string): Option<nat>
  {
    if entries == [] then None
    else if entries[0].logicalId == id && entries[0].contextWindow.Some? then entries[0].contextWindow
    else FirstWindow(entries[1..], id)
  }

  /** One model for each id: its first entry, with the first known context window. */
  function Merged(entries: seq<ModelInfo>): seq<ModelInfo>
  {
    var at := FirstIndices(entries);
    seq(|at|, k requires 0 <= k < |at| =>
      var first := entries[at[k]]; first.(contextWindow := FirstWindow(entries, first.logicalId)))
  }

  ghost predicate FirstOfId(entries: seq<ModelInfo>, i: nat)
  {
    i < |entries| && forall j :: 0 <= j < i ==> entries[j].logicalId != entries[i].logicalId
  }

  lemma {:induction false} FirstIndicesExact(entries: seq<ModelInfo>)
    ensures forall k :: 0 <= k < |FirstIndices(entries)| ==> FirstOfId(entries, FirstIndices(entries)[k])
    ensures forall k, l :: 0 <= k < l < |FirstIndices(entries)| ==> FirstIndices(entries)[k] < FirstIndices(entries)[l]
    ensures forall i :: FirstOfId(entries, i) ==> i in FirstIndices(entries)
    decreases |entries|
  {
    hide IndexOf;
    if entries != [] {
      var n := |entries| - 1;
      var init := entries[..n];
      FirstIndicesExact(init);
      var at := FirstIndices(init);
      forall i: nat
        ensures FirstOfId(init, i) ==> i < n
        ensures i < n ==> (FirstOfId(init, i) <==> FirstOfId(entries, i))
      {
      }
      forall k | 0 <= k < |at|
        ensures FirstOfId(entries, at[k]) && at[k] < n
      {
        assert FirstOfId(init, at[k]);
      }
    }
  }

  lemma {:induction false} FirstWindowSnoc(entries: seq<ModelInfo>, last: ModelInfo, id: string)
    ensures FirstWindow(entries + [last], id)
            == Either(FirstWindow(entries, id), if last.logicalId == id then last.contextWindow else None)
  {
    if entries == [] {
      assert entries + [last] == [last] && [last][1..] == [];
    } else {
      assert (entries + [last])[1..] == entries[1..] + [last];
      FirstWindowSnoc(entries[1..], last, id);
    }
  }

  /** The window of an id is that of its first entry that knows one. */
  lemma {:induction false} FirstWindowExact(entries: seq<ModelInfo>, id: string, i: nat)
    requires i < |entries| && entries[i].logicalId == id && entries[i].contextWindow.Some?
    requires forall j :: 0 <= j < i && entries[j].logicalId == id ==> entries[j].contextWindow.None?
    ensures FirstWindow(entries, id) == entries[i].contextWindow
  {
    if i > 0 {
      FirstWindowExact(entries[1..], id, i - 1);
    }
  }

  lemma {:induction false} FirstWindowNone(entries: seq<ModelInfo>, id: string)
    requires forall j :: 0 <= j < |entries| && entries[j].logicalId == id ==> entries[j].contextWindow.None?
    ensures FirstWindow(entries, id) == None
  {
    if entries != [] {
      FirstWindowNone(entries[1..], id);
    }
  }

  /** The merged list has every id once, in the order of first mention: its first entry, with the first known window. */
  lemma MergedExact(entries: seq<ModelInfo>)
    ensures var m, at := Merged(entries), FirstIndices(entries);
            |m| == |at|
            && forall k :: 0 <= k < |m| ==>
                 && FirstOfId(entries, at[k])
                 && m[k].logicalId == entries[at[k]].logicalId
                 && m[k].provider == entries[at[k]].provider && m[k].sourceFile == entries[at[k]].sourceFile
                 && m[k].contextWindow == FirstWindow(entries, m[k].logicalId)
    ensures UniqueIds(Merged(entries))
    ensures forall id :: IndexOf(Merged(entries), id).Some? <==> IndexOf(entries, id).Some?
  {
    hide IndexOf, FirstWindow, FirstIndices;
    FirstIndicesExact(entries);
    var m, at := Merged(entries), FirstIndices(entries);
    forall k, l | 0 <= k < l < |m|
      ensures m[k].logicalId != m[l].logicalId
    {
      assert FirstOfId(entries, at[k]) && FirstOfId(entries, at[l]) && at[k] < at[l];
    }
    forall id
      ensures IndexOf(m, id).Some? <==> IndexOf(entries, id).Some?
    {
      SameIds(entries, id);
    }
  }

  ghost predicate UniqueIds(models: seq<ModelInfo>)
  {
    forall k, l :: 0 <= k < l < |models| ==> models[k].logicalId != models[l].logicalId
  }

  lemma SameIds(entries: seq<ModelInfo>, id: string)
    ensures IndexOf(Merged(entries), id).Some? <==> IndexOf(entries, id).Some?
  {
    hide IndexOf, FirstWindow, FirstIndices;
    FirstIndicesExact(entries);
    var m, at := Merged(entries), FirstIndices(entries);
    var found := IndexOf(entries, id);
    if found.Some? {
      assert FirstOfId(entries, found.value);
      var k :| 0 <= k < |at| && at[k] == found.value;
      assert m[k].logicalId == id;
    }
    if IndexOf(m, id).Some? {
      var k := IndexOf(m, id).value;
      assert entries[at[k]].logicalId == id;
    }
  }

  /** Upserting one more entry is the closed form of one more entry. */
  lemma MergedStep(init: seq<ModelInfo>, last: ModelInfo)
    ensures Merged(init + [last]) == Upserted(Merged(init), last)
  {
    hide IndexOf, FirstWindow, Merged, Upserted, FirstIndices;
    var all, m, r := init + [last], Merged(init), Merged(init + [last]);
    var u := Upserted(m, last);
    MergedExact(init);
    SplitFirst(init, last);
    forall k | 0 <= k < |m|
      ensures r[k] == u[k]
    {
      KnownModel(init, last, k);
    }
    if IndexOf(init, last.logicalId).None? {
      NewModel(init, last);
    }
  }

  lemma SplitFirst(init: seq<ModelInfo>, last: ModelInfo)
    ensures FirstIndices(init + [last])
            == FirstIndices(init) + if IndexOf(init, last.logicalId).None? then [|init|] else []
    ensures |Merged(init + [last])| == |Merged(init)| + if IndexOf(init, last.logicalId).None? then 1 else 0
    ensures |Upserted(Merged(init), last)| == |Merged(init)| + if IndexOf(init, last.logicalId).None? then 1 else 0
  {
    hide IndexOf, FirstWindow;
    assert (init + [last])[..|init|] == init;
    SameIds(init, last.logicalId);
  }

  lemma KnownModel(init: seq<ModelInfo>, last: ModelInfo, k: nat)
    requires k < |Merged(init)|
    ensures k < |Merged(init + [last])| && k < |Upserted(Merged(init), last)|
    ensures Merged(init + [last])[k] == Upserted(Merged(init), last)[k]
  {
    hide IndexOf, FirstWindow, FirstIndices;
    SplitFirst(init, last);
    MergedExact(init);
    var at := FirstIndices(init);
    var first := init[at[k]];
    assert (init + [last])[at[k]] == first;
    FirstWindowSnoc(init, last, first.logicalId);
  }

  lemma NewModel(init: seq<ModelInfo>, last: ModelInfo)
    requires IndexOf(init, last.logicalId).None?
    ensures |Merged(init + [last])| == |Merged(init)| + 1 == |Upserted(Merged(init), last)|
    ensures Merged(init + [last])[|Merged(init)|] == last == Upserted(Merged(init), last)[|Merged(init)|]
  {
    hide IndexOf, FirstWindow, FirstIndices;
    SplitFirst(init, last);
    SameIds(init, last.logicalId);
    FirstWindowSnoc(init, last, last.logicalId);
    FirstWindowNone(init, last.logicalId);
    assert (init + [last])[|init|] == last;
  }

  function ById(m: ModelInfo): Key
  {
    Key(m.logicalId, None)
  }

  /** The scan: every entry is upserted, then the models are sorted by id. */
  method ScanModels(entries: seq<ModelInfo>) returns (models: seq<ModelInfo>)
    ensures models == SortRows(Merged(entries), ById)
  {
    hide Upserted, Merged, SortRows;
    var registry := new Registry();
    NothingMerged();
    for i := 0 to |entries|
      invariant fresh(registry)
      invariant registry.models == Merged(entries[..i])
    {
      assert entries[..i + 1] == entries[..i] + [entries[i]];
      MergedStep(entries[..i], entries[i]);
      registry.UpsertModel(entries[i]);
    }
    assert entries[..|entries|] == entries;
    models := SortRows(registry.models, ById);
  }

  lemma NothingMerged()
    ensures Merged([]) == []
  {
  }

  /** The snapshot lists its models in strictly increasing id order, and a model for exactly the scanned ids. */
  lemma SnapshotExact(entries: seq<ModelInfo>)
    ensures var models := SortRows(Merged(entries), ById);
            Increasing(models, ById)
            && forall id :: FirstWith(models, ById, Key(id, None)) == FirstWith(Merged(entries), ById, Key(id, None))
  {
    hide *;
    var merged := Merged(entries);
    MergedExact(entries);
    var models := SortRows(merged, ById);
    SortIsStable(merged, ById, Key("", None));
    SortMembers(merged, ById);
    UniqueSorted(merged, models);
    forall id
      ensures FirstWith(models, ById, Key(id, None)) == FirstWith(merged, ById, Key(id, None))
    {
      SortKeepsFirst(merged, ById, Key(id, None));
    }
  }

  lemma UniqueSorted(merged: seq<ModelInfo>, models: seq<ModelInfo>)
    requires UniqueIds(merged) && multiset(models) == multiset(merged) && NonDecreasing(models, ById)
    ensures Increasing(models, ById)
  {
    hide KeyLess;
    forall i, j | 0 <= i < j < |models|
      ensures KeyLess(ById(models[i]), ById(models[j]))
    {
      LeqIsLessOrEqual(ById(models[i]), ById(models[j]));
      if models[i].logicalId == models[j].logicalId {
        TwiceInMultiset(merged, models, i, j);
      }
    }
  }

  lemma TwiceInMultiset(merged: seq<ModelInfo>, models: seq<ModelInfo>, i: nat, j: nat)
    requires i < j < |models| && models[i].logicalId == models[j].logicalId
    requires multiset(models) == multiset(merged)
    ensures !UniqueIds(merged)
  {
    assert models[i] in multiset(merged) && models[j] in multiset(merged);
    if models[i] == models[j] {
      TwiceCounts(models, i, j);
      CountsTwice(merged, models[i]);
    }
  }

  lemma TwiceCounts(models: seq<ModelInfo>, i: nat, j: nat)
    requires i < j < |models| && models[i] == models[j]
    ensures multiset(models)[models[i]] >= 2
  {
    assert models == models[..j] + [models[j]] + models[j + 1..];
    assert models[i] in models[..j];
  }

  lemma {:induction false} CountsTwice(merged: seq<ModelInfo>, m: ModelInfo)
    requires multiset(merged)[m] >= 2
    ensures exists k, l :: 0 <= k < l < |merged| && merged[k] == m && merged[l] == m
  {
    assert merged == [merged[0]] + merged[1..];
    if merged[0] == m {
      assert m in multiset(merged[1..]);
      var l :| 0 <= l < |merged[1..]| && merged[1..][l] == m;
      assert merged[0] == m && merged[l + 1] == m;
    } else {
      CountsTwice(merged[1..], m);
      var k, l :| 0 <= k < l < |merged[1..]| && merged[1..][k] == m && merged[1..][l] == m;
      assert merged[k + 1] == m && merged[l + 1] == m;
    }
  }
}
