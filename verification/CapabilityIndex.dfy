/**
 The inverted index from capability tags to candidates, against a direct search over all manifests.
 A manifest arrives as a JSON value, or as nothing when it could not be loaded.
 */
module CapabilityIndex {
  import opened Wrappers
  import opened Text
  import opened Decimal
  import opened JsonTree
  import opened KeyOrder
  import opened ProtocolRegistry

  // ---------------------------------------------------------------- the tag table

  datatype Relation = RequiresDistinctive | RequiresAny | UnrelatedWire | ContextWindowHeuristic
  {
    function Shown(): string
    {
      match this
      case RequiresDistinctive => "RequiresDistinctive"
      case RequiresAny => "RequiresAny"
      case UnrelatedWire => "UnrelatedWire"
      case ContextWindowHeuristic => "ContextWindowHeuristic"
    }
  }

  datatype TagEntry = TagEntry(tag: string, relation: Relation, wire: seq<string>)

  function Table(): seq<TagEntry>
  {
    [TagEntry("high-reasoning", RequiresDistinctive, ["reasoning"]),
     TagEntry("coding", RequiresAny, ["tools"]),
     TagEntry("speed", UnrelatedWire, []),
     TagEntry("document_understanding", RequiresAny, ["vision"]),
     TagEntry("tool_calling", RequiresAny, ["tools", "parallel_tools", "agentic"]),
     TagEntry("long_context", ContextWindowHeuristic, [])]
  }

  function Tags(): seq<string>
  {
    ["high-reasoning", "coding", "speed", "document_understanding", "tool_calling", "long_context"]
  }

  lemma TableTags()
    ensures forall e :: e in Table() ==> e.tag in Tags()
  {
  }

  const LONG_CONTEXT_MIN_TOKENS: nat := 128000
  const U32_MAX: nat := 4294967295

  // ---------------------------------------------------------------- reading a manifest

  function Texts(values: seq<Json>): set<string>
  {
    set i | 0 <= i < |values| && values[i].Str? :: values[i].text
  }

  function TextsAt(value: Json, key: string): set<string>
  {
    var entries := AsArray(Member(value, key));
    if entries.Some? then Texts(entries.value) else {}
  }

  function CollectWireCapabilities(raw: Json): set<string>
  {
    var caps := Member(raw, "capabilities");
    if caps.None? then {}
    else if caps.value.Arr? then Texts(caps.value.entries)
    else if !caps.value.Obj? then {}
    else
      TextsAt(caps.value, "required") + TextsAt(caps.value, "optional")
      + (if AsBool(Pointer(caps.value, ["feature_flags", "extended_thinking"])) == Some(true) then {"reasoning"} else {})
      + (if AsBool(Pointer(caps.value, ["tool_calling", "native", "supported"])) == Some(true) then {"tools"} else {})
  }

  predicate HasVisionHint(raw: Json, wire: set<string>)
  {
    "vision" in wire
    || AsBool(Pointer(raw, ["multimodal", "vision"])) == Some(true)
    || "vision" in TextsAt(raw, "multimodal") || "image" in TextsAt(raw, "multimodal")
  }

  datatype ManifestFile = ManifestFile(path: string, stem: Option<string>, raw: Option<Json>)

  function ProviderId(file: ManifestFile, raw: Json): string
  {
    var id := Member(raw, "id");
    if id.Some? && id.value.Str? && !Blank(id.value.text) then Trim(id.value.text)
    else if file.stem.Some? then file.stem.value
    else "unknown"
  }

  /** What the matchers work on: one loaded manifest with what was read from it. */
  datatype Source = Source(providerId: string, path: string, raw: Json, wire: set<string>)

  function SourceOf(file: ManifestFile, raw: Json): Source
  {
    Source(ProviderId(file, raw), file.path, raw, CollectWireCapabilities(raw))
  }

  function Models(raw: Json): Option<seq<Field>>
  {
    AsObject(Pointer(raw, ["metadata", "models"]))
  }

  function ModelFields(raw: Json): seq<Field>
  {
    if Models(raw).Some? then Models(raw).value else []
  }

  /** Some model states facts of its own. */
  predicate Annotated(raw: Json)
  {
    exists i :: 0 <= i < |ModelFields(raw)|
      && (Member(ModelFields(raw)[i].value, "model_capabilities").Some? || Member(ModelFields(raw)[i].value, "modalities").Some?)
  }

  /** An omitted fact is unknown, which is not the same as no. */
  datatype Known = Yes | No | Unknown
  {
    predicate OrProvider(providerAllows: bool)
    {
      match this
      case Yes => true
      case No => false
      case Unknown => providerAllows
    }
  }

  function FromOption(v: Option<bool>): Known
  {
    if v.None? then Unknown else if v.value then Yes else No
  }

  function ModelBool(meta: Json, key: string): Option<bool>
  {
    AsBool(Pointer(meta, ["model_capabilities", key]))
  }

  function ModelDocumentUnderstanding(meta: Json): Known
  {
    var input := AsArray(Pointer(meta, ["modalities", "input"]));
    if input.Some? then
      if exists t :: t in Texts(input.value) && Lower(t) in {"image", "pdf", "video"} then Yes else No
    else FromOption(ModelBool(meta, "attachment"))
  }

  predicate ProviderMatchesTag(e: TagEntry, raw: Json, wire: set<string>)
  {
    match e.relation
    case UnrelatedWire => false
    case ContextWindowHeuristic => false
    case RequiresDistinctive => AnyWire(e, wire)
    case RequiresAny => if e.tag == "document_understanding" then HasVisionHint(raw, wire) else AnyWire(e, wire)
  }

  predicate AnyWire(e: TagEntry, wire: set<string>)
  {
    exists i :: 0 <= i < |e.wire| && e.wire[i] in wire
  }

  /** The fact a model states about a tag; tags without model facts have none. */
  function ModelFact(meta: Json, tag: string): Option<Known>
  {
    if tag == "high-reasoning" then Some(FromOption(ModelBool(meta, "reasoning")))
    else if tag == "coding" || tag == "tool_calling" then Some(FromOption(ModelBool(meta, "tool_call")))
    else if tag == "document_understanding" then Some(ModelDocumentUnderstanding(meta))
    else None
  }

  // ---------------------------------------------------------------- candidates

  datatype Candidate = Candidate(providerId: string, logicalModelId: Option<string>, reason: string, sourceFile: string)

  datatype Hit = Hit(tag: string, candidate: Candidate)

  function KeyOf(c: Candidate): Key
  {
    Key(c.providerId, c.logicalModelId)
  }

  function JoinedWire(wire: seq<string>): string
  {
    if wire == [] then "" else if |wire| == 1 then wire[0] else wire[0] + "|" + JoinedWire(wire[1..])
  }

  function ProviderHit(src: Source, e: TagEntry): seq<Hit>
  {
    if !ProviderMatchesTag(e, src.raw, src.wire) then []
    else
      var reason := "wire match (" + e.relation.Shown() + "): " + JoinedWire(e.wire);
      [Hit(e.tag, Candidate(src.providerId, None, reason, src.path))]
  }

  function ProviderHits(src: Source, table: seq<TagEntry>): seq<Hit>
  {
    if table == [] then []
    else ProviderHits(src, table[..|table| - 1]) + ProviderHit(src, table[|table| - 1])
  }

  method MatchProviderTags(src: Source) returns (hits: seq<Hit>)
    ensures hits == ProviderHits(src, Table())
  {
    hide ProviderHit, Table;
    hits := [];
    for i := 0 to |Table()|
      invariant hits == ProviderHits(src, Table()[..i])
    {
      assert Table()[..i + 1][..i] == Table()[..i];
      hits := hits + ProviderHit(src, Table()[i]);
    }
    assert Table()[..|Table()|] == Table();
  }

  function ModelHit(src: Source, model: Field, e: TagEntry): seq<Hit>
  {
    var fact := ModelFact(model.value, e.tag);
    var providerOk := ProviderMatchesTag(e, src.raw, src.wire);
    if fact.None? || !fact.value.OrProvider(providerOk) then []
    else
      var reason := if fact.value == Yes && !providerOk then "model fact overrides empty ads (" + JoinedWire(e.wire) + ")"
                    else if fact.value == Yes then "model fact (" + JoinedWire(e.wire) + ")"
                    else "wire fallback (omit model fact): " + JoinedWire(e.wire);
      var id := ComposeLogicalModelId(src.providerId, model.key);
      [Hit(e.tag, Candidate(src.providerId, Some(id), reason, src.path))]
  }

  function ModelHitsOf(src: Source, model: Field, table: seq<TagEntry>): seq<Hit>
  {
    if table == [] then []
    else ModelHitsOf(src, model, table[..|table| - 1]) + ModelHit(src, model, table[|table| - 1])
  }

  function ModelHits(src: Source, models: seq<Field>): seq<Hit>
  {
    if models == [] then []
    else ModelHits(src, models[..|models| - 1]) + ModelHitsOf(src, models[|models| - 1], Table())
  }

  method MatchModelCapabilityTags(src: Source) returns (hits: seq<Hit>)
    ensures hits == ModelHits(src, ModelFields(src.raw))
  {
    hide ModelHit, Table, Models;
    hits := [];
    if Models(src.raw).None? {
      return;
    }
    var models := Models(src.raw).value;
    for i := 0 to |models|
      invariant hits == ModelHits(src, models[..i])
    {
      assert models[..i + 1][..i] == models[..i];
      ghost var before := hits;
      for j := 0 to |Table()|
        invariant hits == before + ModelHitsOf(src, models[i], Table()[..j])
      {
        assert Table()[..j + 1][..j] == Table()[..j];
        hits := hits + ModelHit(src, models[i], Table()[j]);
      }
      assert Table()[..|Table()|] == Table();
    }
    assert models[..|models|] == models;
  }

  function WindowOf(meta: Json): Option<nat>
  {
    AsUnsigned(Member(meta, "context_window"), U32_MAX)
  }

  predicate IsLong(meta: Json)
  {
    WindowOf(meta).Some? && WindowOf(meta).value >= LONG_CONTEXT_MIN_TOKENS
  }

  function LongHit(src: Source, model: Field): seq<Hit>
  {
    if !IsLong(model.value) then []
    else
      var reason := "context_window=" + Printed(WindowOf(model.value).value) + " >= " + Printed(LONG_CONTEXT_MIN_TOKENS);
      var id := ComposeLogicalModelId(src.providerId, model.key);
      [Hit("long_context", Candidate(src.providerId, Some(id), reason, src.path))]
  }

  function LongHits(src: Source, models: seq<Field>): seq<Hit>
  {
    if models == [] then []
    else LongHits(src, models[..|models| - 1]) + LongHit(src, models[|models| - 1])
  }

  method MatchLongContextModels(src: Source) returns (hits: seq<Hit>)
    ensures hits == LongHits(src, ModelFields(src.raw))
  {
    hide LongHit, Models;
    hits := [];
    if Models(src.raw).None? {
      return;
    }
    var models := Models(src.raw).value;
    for i := 0 to |models|
      invariant hits == LongHits(src, models[..i])
    {
      assert models[..i + 1][..i] == models[..i];
      hits := hits + LongHit(src, models[i]);
    }
    assert models[..|models|] == models;
  }

  // ---------------------------------------------------------------- building the index

  /** The hits of one manifest: per model when it is annotated, else for the provider; then the long-context models. */
  function SourceHits(src: Source): seq<Hit>
  {
    (if Annotated(src.raw) then ModelHits(src, ModelFields(src.raw)) else ProviderHits(src, Table()))
    + LongHits(src, ModelFields(src.raw))
  }

  function FileHits(file: ManifestFile): seq<Hit>
  {
    if file.raw.None? then [] else SourceHits(SourceOf(file, file.raw.value))
  }

  function AllHits(files: seq<ManifestFile>): seq<Hit>
  {
    if files == [] then [] else AllHits(files[..|files| - 1]) + FileHits(files[|files| - 1])
  }

  function RowsFor(hits: seq<Hit>, tag: string): seq<Candidate>
  {
    if hits == [] then []
    else
      var last := hits[|hits| - 1];
      RowsFor(hits[..|hits| - 1], tag) + if last.tag == tag then [last.candidate] else []
  }

  lemma RowsStep(hits: seq<Hit>, hit: Hit, tag: string)
    ensures RowsFor(hits + [hit], tag) == RowsFor(hits, tag) + if hit.tag == tag then [hit.candidate] else []
  {
    assert (hits + [hit])[..|hits|] == hits;
  }

  ghost predicate TagsKnown(hits: seq<Hit>)
  {
    forall i :: 0 <= i < |hits| ==> hits[i].tag in Tags()
  }

  /** Every tag has its list, holding the hits pushed so far. */
  ghost predicate Pushed(byTag: map<string, seq<Candidate>>, hits: seq<Hit>)
  {
    (forall t :: t in byTag <==> t in Tags()) && forall t :: t in Tags() ==> byTag[t] == RowsFor(hits, t)
  }

  method PushAll(byTag: map<string, seq<Candidate>>, hits: seq<Hit>, ghost before: seq<Hit>)
    returns (r: map<string, seq<Candidate>>)
    requires Pushed(byTag, before) && TagsKnown(hits)
    ensures Pushed(r, before + hits)
  {
    hide *;
    r := byTag;
    assert before + hits[..0] == before;
    for i := 0 to |hits|
      invariant Pushed(r, before + hits[..i])
    {
      assert before + hits[..i + 1] == before + hits[..i] + [hits[i]];
      PushStep(r, before + hits[..i], hits[i]);
      TagKnown(hits, i);
      var list := if hits[i].tag in r then r[hits[i].tag] else [];
      r := r[hits[i].tag := list + [hits[i].candidate]];
    }
    assert hits[..|hits|] == hits;
  }

  lemma TagKnown(hits: seq<Hit>, i: nat)
    requires TagsKnown(hits) && i < |hits|
    ensures hits[i].tag in Tags()
  {
  }

  lemma PushStep(byTag: map<string, seq<Candidate>>, before: seq<Hit>, hit: Hit)
    requires Pushed(byTag, before)
    ensures hit.tag in Tags() ==> hit.tag in byTag && Pushed(byTag[hit.tag := byTag[hit.tag] + [hit.candidate]], before + [hit])
  {
    hide RowsFor, Tags;
    forall t
      ensures RowsFor(before + [hit], t) == RowsFor(before, t) + if hit.tag == t then [hit.candidate] else []
    {
      RowsStep(before, hit, t);
    }
  }

  lemma {:induction false} ProviderTagsKnown(src: Source, table: seq<TagEntry>)
    requires forall e :: e in table ==> e.tag in Tags()
    ensures TagsKnown(ProviderHits(src, table))
  {
    hide Tags, ProviderMatchesTag, JoinedWire;
    if table != [] {
      ProviderTagsKnown(src, table[..|table| - 1]);
    }
  }

  lemma {:induction false} ModelTagsKnown(src: Source, model: Field, table: seq<TagEntry>)
    requires forall e :: e in table ==> e.tag in Tags()
    ensures TagsKnown(ModelHitsOf(src, model, table))
  {
    hide Tags, ProviderMatchesTag, JoinedWire, ModelFact, ComposeLogicalModelId;
    if table != [] {
      ModelTagsKnown(src, model, table[..|table| - 1]);
    }
  }

  lemma {:induction false} ModelsTagsKnown(src: Source, models: seq<Field>)
    ensures TagsKnown(ModelHits(src, models))
  {
    hide Tags, ModelHitsOf, Table;
    if models != [] {
      ModelsTagsKnown(src, models[..|models| - 1]);
      TableTags();
      ModelTagsKnown(src, models[|models| - 1], Table());
    }
  }

  lemma {:induction false} LongTagsKnown(src: Source, models: seq<Field>)
    ensures TagsKnown(LongHits(src, models))
  {
    hide IsLong, Printed, ComposeLogicalModelId;
    if models != [] {
      LongTagsKnown(src, models[..|models| - 1]);
    }
  }

  function Finished(byTag: map<string, seq<Candidate>>): map<string, seq<Candidate>>
  {
    map t | t in byTag :: SortDedup(byTag[t], KeyOf)
  }

  /** The index: for each tag the pushed rows, sorted by provider and model, one row for each key. */
  function IndexRows(files: seq<ManifestFile>, tag: string): seq<Candidate>
  {
    SortDedup(RowsFor(AllHits(files), tag), KeyOf)
  }

  method BuildIndex(files: seq<ManifestFile>) returns (index: map<string, seq<Candidate>>)
    ensures forall t :: t in index <==> t in Tags()
    ensures forall t :: t in Tags() ==> index[t] == IndexRows(files, t)
  {
    hide *;
    var byTag: map<string, seq<Candidate>> := map t | t in Tags() :: [];
    NothingPushed(byTag);
    for i := 0 to |files|
      invariant Pushed(byTag, AllHits(files[..i]))
    {
      AllHitsStep(files, i);
      if files[i].raw.None? {
        continue;
      }
      var src := SourceOf(files[i], files[i].raw.value);
      ghost var before := AllHits(files[..i]);
      SourceHitsCases(files[i]);
      var hits: seq<Hit>;
      if Annotated(src.raw) {
        hits := MatchModelCapabilityTags(src);
        ModelsTagsKnown(src, ModelFields(src.raw));
      } else {
        hits := MatchProviderTags(src);
        TableTags();
        ProviderTagsKnown(src, Table());
      }
      byTag := PushAll(byTag, hits, before);
      var more := MatchLongContextModels(src);
      LongTagsKnown(src, ModelFields(src.raw));
      byTag := PushAll(byTag, more, before + hits);
      assert before + hits + more == before + (hits + more);
    }
    assert files[..|files|] == files;
    index := Finished(byTag);
    FinishedIs(byTag, files);
  }

  lemma NothingPushed(byTag: map<string, seq<Candidate>>)
    requires (forall t :: t in byTag <==> t in Tags()) && forall t :: t in byTag ==> byTag[t] == []
    ensures Pushed(byTag, AllHits([]))
  {
    hide Tags;
  }

  lemma AllHitsStep(files: seq<ManifestFile>, i: nat)
    requires i < |files|
    ensures AllHits(files[..i + 1]) == AllHits(files[..i]) + FileHits(files[i])
    ensures files[i].raw.None? ==> AllHits(files[..i + 1]) == AllHits(files[..i])
  {
    hide SourceHits;
    assert files[..i + 1][..i] == files[..i];
  }

  lemma SourceHitsCases(file: ManifestFile)
    requires file.raw.Some?
    ensures var src := SourceOf(file, file.raw.value);
            FileHits(file)
            == (if Annotated(src.raw) then ModelHits(src, ModelFields(src.raw)) else ProviderHits(src, Table()))
               + LongHits(src, ModelFields(src.raw))
  {
    hide Annotated, ModelHits, ProviderHits, LongHits, Table, SourceOf, ModelFields;
  }

  lemma FinishedIs(byTag: map<string, seq<Candidate>>, files: seq<ManifestFile>)
    requires Pushed(byTag, AllHits(files))
    ensures forall t :: t in Finished(byTag) <==> t in Tags()
    ensures forall t :: t in Tags() ==> Finished(byTag)[t] == IndexRows(files, t)
  {
    hide Tags, SortDedup, AllHits, RowsFor, KeyOf;
  }

  // ---------------------------------------------------------------- the direct search

  /** The three-valued rule: a model's own fact decides, an unknown fact defers to the provider's wire features. */
  predicate ModelOffers(meta: Json, e: TagEntry, raw: Json)
  {
    match ModelFact(meta, e.tag)
    case None => false
    case Some(Yes) => true
    case Some(No) => false
    case Some(Unknown) => ProviderMatchesTag(e, raw, CollectWireCapabilities(raw))
  }

  /** The manifest offers the tag under the key. */
  ghost predicate Offers(file: ManifestFile, tag: string, k: Key)
  {
    file.raw.Some?
    && var raw := file.raw.value;
       k.major == ProviderId(file, raw)
       && (OffersLong(raw, tag, k) || if Annotated(raw) then OffersModel(raw, tag, k) else OffersProvider(raw, tag, k))
  }

  ghost predicate OffersLong(raw: Json, tag: string, k: Key)
  {
    tag == "long_context"
    && exists model :: model in ModelFields(raw) && IsLong(model.value) && k.minor == Some(ComposeLogicalModelId(k.major, model.key))
  }

  ghost predicate OffersModel(raw: Json, tag: string, k: Key)
  {
    exists model, e :: model in ModelFields(raw) && e in Table() && e.tag == tag
      && ModelOffers(model.value, e, raw) && k.minor == Some(ComposeLogicalModelId(k.major, model.key))
  }

  ghost predicate OffersProvider(raw: Json, tag: string, k: Key)
  {
    k.minor == None
    && exists e :: e in Table() && e.tag == tag && ProviderMatchesTag(e, raw, CollectWireCapabilities(raw))
  }

  /** Some hit for the tag has the key. */
  ghost predicate Hits(hits: seq<Hit>, tag: string, k: Key)
  {
    exists i :: 0 <= i < |hits| && hits[i].tag == tag && KeyOf(hits[i].candidate) == k
  }

  lemma HitsAppend(a: seq<Hit>, b: seq<Hit>, tag: string, k: Key)
    ensures Hits(a + b, tag, k) <==> Hits(a, tag, k) || Hits(b, tag, k)
  {
    hide KeyOf;
    if Hits(a, tag, k) {
      var i :| 0 <= i < |a| && a[i].tag == tag && KeyOf(a[i].candidate) == k;
      assert (a + b)[i] == a[i];
    }
    if Hits(b, tag, k) {
      var i :| 0 <= i < |b| && b[i].tag == tag && KeyOf(b[i].candidate) == k;
      assert (a + b)[|a| + i] == b[i];
    }
  }

  lemma {:induction false} RowsExact(hits: seq<Hit>, tag: string, k: Key)
    ensures FirstWith(RowsFor(hits, tag), KeyOf, k).Some? <==> Hits(hits, tag, k)
    decreases |hits|
  {
    if hits != [] {
      hide FirstWith, RowsFor, KeyOf, Hits;
      var init, last := hits[..|hits| - 1], hits[|hits| - 1];
      assert hits == init + [last];
      RowsExact(init, tag, k);
      RowsStep(init, last, tag);
      HitsAppend(init, [last], tag, k);
      OneHit(last, tag, k);
      FirstWithAppend(RowsFor(init, tag), [last.candidate], KeyOf, k);
      FirstOfOne(last.candidate, KeyOf, k);
      assert RowsFor(init, tag) + [] == RowsFor(init, tag);
    }
  }

  lemma OneHit(hit: Hit, tag: string, k: Key)
    ensures Hits([hit], tag, k) <==> hit.tag == tag && KeyOf(hit.candidate) == k
  {
    assert [hit][0] == hit;
  }

  lemma NoHit(tag: string, k: Key)
    ensures !Hits([], tag, k)
  {
  }

  lemma {:induction false} ProviderHitsExact(src: Source, table: seq<TagEntry>, tag: string, k: Key)
    ensures Hits(ProviderHits(src, table), tag, k)
            <==> k == Key(src.providerId, None) && exists e :: e in table && e.tag == tag && ProviderMatchesTag(e, src.raw, src.wire)
  {
    hide ProviderMatchesTag, Hits, KeyOf;
    if table == [] {
      NoHit(tag, k);
    } else {
      var init, last := table[..|table| - 1], table[|table| - 1];
      assert table == init + [last];
      ProviderHitsExact(src, init, tag, k);
      HitsAppend(ProviderHits(src, init), ProviderHit(src, last), tag, k);
      ProviderHitExact(src, last, tag, k);
    }
  }

  lemma ProviderHitExact(src: Source, e: TagEntry, tag: string, k: Key)
    ensures Hits(ProviderHit(src, e), tag, k)
            <==> k == Key(src.providerId, None) && e.tag == tag && ProviderMatchesTag(e, src.raw, src.wire)
  {
    hide ProviderMatchesTag, Hits, JoinedWire;
    NoHit(tag, k);
    if ProviderMatchesTag(e, src.raw, src.wire) {
      OneHit(ProviderHit(src, e)[0], tag, k);
    }
  }

  function ModelKey(src: Source, model: Field): Key
  {
    Key(src.providerId, Some(ComposeLogicalModelId(src.providerId, model.key)))
  }

  lemma ModelHitExact(src: Source, model: Field, e: TagEntry, tag: string, k: Key)
    requires src.wire == CollectWireCapabilities(src.raw)
    ensures Hits(ModelHit(src, model, e), tag, k)
            <==> k == ModelKey(src, model) && e.tag == tag && ModelOffers(model.value, e, src.raw)
  {
    hide ProviderMatchesTag, Hits, JoinedWire, ModelFact, ComposeLogicalModelId, CollectWireCapabilities;
    NoHit(tag, k);
    if ModelHit(src, model, e) != [] {
      OneHit(ModelHit(src, model, e)[0], tag, k);
    }
  }

  lemma {:induction false} ModelHitsOfExact(src: Source, model: Field, table: seq<TagEntry>, tag: string, k: Key)
    requires src.wire == CollectWireCapabilities(src.raw)
    ensures Hits(ModelHitsOf(src, model, table), tag, k)
            <==> k == ModelKey(src, model) && exists e :: e in table && e.tag == tag && ModelOffers(model.value, e, src.raw)
  {
    hide ModelOffers, Hits, KeyOf, ModelHit, ModelKey, CollectWireCapabilities;
    if table == [] {
      NoHit(tag, k);
    } else {
      var init, last := table[..|table| - 1], table[|table| - 1];
      assert table == init + [last];
      ModelHitsOfExact(src, model, init, tag, k);
      HitsAppend(ModelHitsOf(src, model, init), ModelHit(src, model, last), tag, k);
      ModelHitExact(src, model, last, tag, k);
    }
  }

  ghost predicate SomeModelOffers(src: Source, models: seq<Field>, tag: string, k: Key)
  {
    exists model, e :: model in models && e in Table() && e.tag == tag && ModelOffers(model.value, e, src.raw)
      && k == ModelKey(src, model)
  }

  lemma {:induction false} ModelHitsExact(src: Source, models: seq<Field>, tag: string, k: Key)
    requires src.wire == CollectWireCapabilities(src.raw)
    ensures Hits(ModelHits(src, models), tag, k) <==> SomeModelOffers(src, models, tag, k)
  {
    hide ModelOffers, Hits, KeyOf, ModelHitsOf, ModelKey, CollectWireCapabilities, Table;
    if models == [] {
      NoHit(tag, k);
    } else {
      var init, last := models[..|models| - 1], models[|models| - 1];
      assert models == init + [last];
      ModelHitsExact(src, init, tag, k);
      HitsAppend(ModelHits(src, init), ModelHitsOf(src, last, Table()), tag, k);
      ModelHitsOfExact(src, last, Table(), tag, k);
    }
  }

  lemma LongHitExact(src: Source, model: Field, tag: string, k: Key)
    ensures Hits(LongHit(src, model), tag, k) <==> tag == "long_context" && IsLong(model.value) && k == ModelKey(src, model)
  {
    hide Hits, Printed, IsLong, ComposeLogicalModelId;
    NoHit(tag, k);
    if LongHit(src, model) != [] {
      OneHit(LongHit(src, model)[0], tag, k);
    }
  }

  lemma {:induction false} LongHitsExact(src: Source, models: seq<Field>, tag: string, k: Key)
    ensures Hits(LongHits(src, models), tag, k)
            <==> tag == "long_context" && exists model :: model in models && IsLong(model.value) && k == ModelKey(src, model)
  {
    hide Hits, LongHit, IsLong, ModelKey;
    if models == [] {
      NoHit(tag, k);
    } else {
      var init, last := models[..|models| - 1], models[|models| - 1];
      assert models == init + [last];
      LongHitsExact(src, init, tag, k);
      HitsAppend(LongHits(src, init), LongHit(src, last), tag, k);
      LongHitExact(src, last, tag, k);
    }
  }

  lemma FileHitsExact(file: ManifestFile, tag: string, k: Key)
    ensures Hits(FileHits(file), tag, k) <==> Offers(file, tag, k)
  {
    hide *;
    if file.raw.None? {
      NoFile(file, tag, k);
    } else {
      var raw := file.raw.value;
      var src := SourceOf(file, raw);
      SourceHitsCases(file);
      SourceFields(file);
      HitsAppend(if Annotated(raw) then ModelHits(src, ModelFields(raw)) else ProviderHits(src, Table()),
                 LongHits(src, ModelFields(raw)), tag, k);
      ModelHitsExact(src, ModelFields(raw), tag, k);
      ProviderHitsExact(src, Table(), tag, k);
      LongHitsExact(src, ModelFields(raw), tag, k);
      OffersMeans(file, src, tag, k);
    }
  }

  lemma NoFile(file: ManifestFile, tag: string, k: Key)
    requires file.raw.None?
    ensures !Hits(FileHits(file), tag, k) && !Offers(file, tag, k)
  {
  }

  lemma SourceFields(file: ManifestFile)
    requires file.raw.Some?
    ensures var src := SourceOf(file, file.raw.value);
            src.raw == file.raw.value && src.providerId == ProviderId(file, src.raw) && src.wire == CollectWireCapabilities(src.raw)
  {
  }

  lemma OffersMeans(file: ManifestFile, src: Source, tag: string, k: Key)
    requires file.raw.Some? && src.raw == file.raw.value && src.providerId == ProviderId(file, src.raw)
    requires src.wire == CollectWireCapabilities(src.raw)
    ensures var fields := ModelFields(src.raw);
            Offers(file, tag, k)
            <==> (tag == "long_context" && exists model :: model in fields && IsLong(model.value) && k == ModelKey(src, model))
                 || if Annotated(src.raw) then SomeModelOffers(src, fields, tag, k)
                    else k == Key(src.providerId, None) && exists e :: e in Table() && e.tag == tag && ProviderMatchesTag(e, src.raw, src.wire)
  {
    hide ProviderId, ModelFields, Annotated, ModelOffers, IsLong, Table, ProviderMatchesTag,
         CollectWireCapabilities, ComposeLogicalModelId;
  }

  ghost predicate SomeFileOffers(files: seq<ManifestFile>, tag: string, k: Key)
  {
    exists i :: 0 <= i < |files| && Offers(files[i], tag, k)
  }

  lemma {:induction false} AllHitsExact(files: seq<ManifestFile>, tag: string, k: Key)
    ensures Hits(AllHits(files), tag, k) <==> SomeFileOffers(files, tag, k)
  {
    hide Hits, Offers, FileHits;
    if files == [] {
      NoHit(tag, k);
    } else {
      var n := |files| - 1;
      var init, last := files[..n], files[n];
      AllHitsExact(init, tag, k);
      HitsAppend(AllHits(init), FileHits(last), tag, k);
      FileHitsExact(last, tag, k);
      assert forall i :: 0 <= i < n ==> init[i] == files[i];
    }
  }

  /** Each list is strictly increasing in provider and model, and has a row for a key exactly when some manifest offers it. */
  lemma IndexExact(files: seq<ManifestFile>, tag: string)
    ensures Increasing(IndexRows(files, tag), KeyOf)
    ensures forall k :: FirstWith(IndexRows(files, tag), KeyOf, k).Some? <==> SomeFileOffers(files, tag, k)
  {
    hide FirstWith, KeyOf, RowsFor, AllHits, SomeFileOffers, Hits, Increasing, SortDedup;
    var rows := RowsFor(AllHits(files), tag);
    SortDedupExact(rows, KeyOf);
    forall k
      ensures FirstWith(IndexRows(files, tag), KeyOf, k).Some? <==> SomeFileOffers(files, tag, k)
    {
      assert FirstWith(SortDedup(rows, KeyOf), KeyOf, k) == FirstWith(rows, KeyOf, k);
      RowsExact(AllHits(files), tag, k);
      AllHitsExact(files, tag, k);
    }
  }

  /** Nothing ever offers `speed`, so its list is empty. */
  lemma SpeedIsEmpty(files: seq<ManifestFile>)
    ensures IndexRows(files, "speed") == []
  {
    hide IndexRows, FirstWith, KeyOf, Increasing, Offers;
    IndexExact(files, "speed");
    var rows := IndexRows(files, "speed");
    if rows != [] {
      var k := KeyOf(rows[0]);
      HeadFound(rows, KeyOf);
      assert SomeFileOffers(files, "speed", k);
      var i :| 0 <= i < |files| && Offers(files[i], "speed", k);
      SpeedNotOffered(files[i], k);
    }
  }

  lemma SpeedNotOffered(file: ManifestFile, k: Key)
    ensures !Offers(file, "speed", k)
  {
    hide ModelFields, CollectWireCapabilities, ProviderId, Annotated, ComposeLogicalModelId, IsLong;
  }

  /** A provider-level row comes from a manifest without model facts whose wire features match. */
  lemma ProviderRowsAreUnannotated(files: seq<ManifestFile>, tag: string, c: Candidate)
    requires c in IndexRows(files, tag) && c.logicalModelId.None?
    ensures exists i :: 0 <= i < |files| && files[i].raw.Some? && !Annotated(files[i].raw.value)
                        && ProviderId(files[i], files[i].raw.value) == c.providerId
  {
    hide IndexRows, FirstWith, Increasing, Offers;
    IndexExact(files, tag);
    var rows := IndexRows(files, tag);
    FirstWithExact(rows, KeyOf, KeyOf(c));
    assert SomeFileOffers(files, tag, KeyOf(c));
    var i :| 0 <= i < |files| && Offers(files[i], tag, KeyOf(c));
    UnannotatedOffer(files[i], tag, KeyOf(c));
  }

  lemma UnannotatedOffer(file: ManifestFile, tag: string, k: Key)
    requires Offers(file, tag, k) && k.minor.None?
    ensures file.raw.Some? && !Annotated(file.raw.value) && ProviderId(file, file.raw.value) == k.major
  {
    hide ModelFields, CollectWireCapabilities, ProviderId, Annotated, ComposeLogicalModelId, IsLong, Table,
         ModelOffers, ProviderMatchesTag;
  }

  // ---------------------------------------------------------------- the reachable view

  /** The candidates whose provider can be reached, in the same order. */
  function FilterReachable(candidates: seq<Candidate>, isReachable: string -> bool): seq<Candidate>
  {
    if candidates == [] then []
    else (if isReachable(candidates[0].providerId) then [candidates[0]] else []) + FilterReachable(candidates[1..], isReachable)
  }

  lemma {:induction false} ReachableMembers(candidates: seq<Candidate>, isReachable: string -> bool)
    ensures forall c :: c in FilterReachable(candidates, isReachable) <==> c in candidates && isReachable(c.providerId)
  {
    if candidates != [] {
      ReachableMembers(candidates[1..], isReachable);
    }
  }

  /** The view keeps exactly the reachable rows, and it is strictly increasing again. */
  lemma {:induction false} ReachableExact(candidates: seq<Candidate>, isReachable: string -> bool)
    requires Increasing(candidates, KeyOf)
    ensures Increasing(FilterReachable(candidates, isReachable), KeyOf)
    ensures forall c :: c in FilterReachable(candidates, isReachable) <==> c in candidates && isReachable(c.providerId)
  {
    hide KeyLess;
    ReachableMembers(candidates, isReachable);
    if candidates != [] {
      var rest := FilterReachable(candidates[1..], isReachable);
      ReachableExact(candidates[1..], isReachable);
      ReachableMembers(candidates[1..], isReachable);
      if rest != [] {
        assert rest[0] in candidates[1..];
      }
      if isReachable(candidates[0].providerId) {
        ConsIncreasing(candidates[0], rest, KeyOf);
      } else {
        assert [] + rest == rest;
      }
    }
  }
}
