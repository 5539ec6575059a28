/**
 Which manifests put a row under which tag, read off the members of the JSON value: the wire features a provider advertises,
 and the facts a model states, which decide where they are stated.
 */
module CapabilityMeaning {
  import opened Wrappers
  import opened Text
  import opened Decimal
  import opened JsonTree
  import opened KeyOrder
  import opened ProtocolRegistry
  import opened CapabilityIndex

  // ---------------------------------------------------------------- members of members

  function Second(v: Json, a: string, b: string): Option<Json>
  {
    if Member(v, a).Some? then Member(Member(v, a).value, b) else None
  }

  function Third(v: Json, a: string, b: string, c: string): Option<Json>
  {
    if Second(v, a, b).Some? then Member(Second(v, a, b).value, c) else None
  }

  lemma PointerTwo(v: Json, a: string, b: string)
    ensures Pointer(v, [a, b]) == Second(v, a, b)
  {
    hide Member, Pointer;
    PointerStep(v, a, [b]);
    assert [a, b] == [a] + [b];
    if Member(v, a).Some? {
      PointerStep(Member(v, a).value, b, []);
      assert [b] == [b] + [];
    }
  }

  lemma PointerStep(v: Json, a: string, rest: seq<string>)
    ensures Pointer(v, [a] + rest) == if Member(v, a).None? then None else Pointer(Member(v, a).value, rest)
    ensures forall w :: Pointer(w, []) == Some(w)
  {
    hide Member;
    assert ([a] + rest)[1..] == rest;
  }

  lemma PointerThree(v: Json, a: string, b: string, c: string)
    ensures Pointer(v, [a, b, c]) == Third(v, a, b, c)
  {
    hide Member, Pointer;
    PointerStep(v, a, [b, c]);
    assert [a, b, c] == [a] + [b, c];
    if Member(v, a).Some? {
      PointerTwo(Member(v, a).value, b, c);
    }
  }

  // ---------------------------------------------------------------- what a provider advertises

  predicate Lists(v: Option<Json>, name: string)
  {
    v.Some? && v.value.Arr? && Str(name) in v.value.entries
  }

  /** The capabilities are a list of names, or an object with two lists and two flags that stand for a name each. */
  predicate Advertises(raw: Json, name: string)
  {
    var caps := Member(raw, "capabilities");
    Lists(caps, name)
    || (caps.Some? && caps.value.Obj?
        && (Lists(Member(caps.value, "required"), name) || Lists(Member(caps.value, "optional"), name)
            || (name == "reasoning" && Second(caps.value, "feature_flags", "extended_thinking") == Some(Bool(true)))
            || (name == "tools" && Third(caps.value, "tool_calling", "native", "supported") == Some(Bool(true)))))
  }

  predicate ShowsVision(raw: Json)
  {
    || Advertises(raw, "vision")
    || Second(raw, "multimodal", "vision") == Some(Bool(true))
    || Lists(Member(raw, "multimodal"), "vision") || Lists(Member(raw, "multimodal"), "image")
  }

  /** The provider's features stand for the tag. */
  predicate ProviderHas(raw: Json, tag: string)
  {
    || (tag == "high-reasoning" && Advertises(raw, "reasoning"))
    || (tag == "coding" && Advertises(raw, "tools"))
    || (tag == "tool_calling" && (Advertises(raw, "tools") || Advertises(raw, "parallel_tools") || Advertises(raw, "agentic")))
    || (tag == "document_understanding" && ShowsVision(raw))
  }

  // ---------------------------------------------------------------- what a model states

  predicate States(meta: Json, fact: string, flag: bool)
  {
    Second(meta, "model_capabilities", fact) == Some(Bool(flag))
  }

  /** A stated fact decides; where it is missing, the provider does. */
  predicate FactOrProvider(meta: Json, fact: string, raw: Json, tag: string)
  {
    States(meta, fact, true) || (!States(meta, fact, false) && ProviderHas(raw, tag))
  }

  /** Listed input kinds count more than the attachment flag. */
  ghost predicate ReadsDocuments(meta: Json, raw: Json)
  {
    var input := Second(meta, "modalities", "input");
    if input.Some? && input.value.Arr? then
      exists t :: Str(t) in input.value.entries && (Lower(t) == "image" || Lower(t) == "pdf" || Lower(t) == "video")
    else FactOrProvider(meta, "attachment", raw, "document_understanding")
  }

  ghost predicate ModelHas(meta: Json, raw: Json, tag: string)
  {
    || (tag == "high-reasoning" && FactOrProvider(meta, "reasoning", raw, tag))
    || ((tag == "coding" || tag == "tool_calling") && FactOrProvider(meta, "tool_call", raw, tag))
    || (tag == "document_understanding" && ReadsDocuments(meta, raw))
  }

  /** The window is a whole number of 32 bits, of at least 128000 tokens. */
  predicate HasLongWindow(meta: Json)
  {
    var w := Member(meta, "context_window");
    w.Some? && w.value.Number? && w.value.printed != "" && AllDigits(w.value.printed)
    && 128000 <= DigitsValue(w.value.printed) <= 4294967295
  }

  ghost predicate HasModel(raw: Json, model: Field)
  {
    exists fields :: Second(raw, "metadata", "models") == Some(Obj(fields)) && model in fields
  }

  ghost predicate StatesFacts(raw: Json)
  {
    exists model :: HasModel(raw, model)
      && (Member(model.value, "model_capabilities").Some? || Member(model.value, "modalities").Some?)
  }

  /** The provider is named by the manifest's id, else by its file. */
  predicate IsProvider(file: ManifestFile, raw: Json, provider: string)
  {
    var id := Member(raw, "id");
    if id.Some? && id.value.Str? && Trim(id.value.text) != "" then provider == Trim(id.value.text)
    else if file.stem.Some? then provider == file.stem.value
    else provider == "unknown"
  }

  /** The manifest gives a row with the key under the tag. */
  ghost predicate Declares(file: ManifestFile, tag: string, k: Key)
  {
    file.raw.Some? && IsProvider(file, file.raw.value, k.major)
    && if k.minor.None? then !StatesFacts(file.raw.value) && ProviderHas(file.raw.value, tag)
       else DeclaresModel(file.raw.value, tag, k)
  }

  ghost predicate DeclaresModel(raw: Json, tag: string, k: Key)
  {
    exists model :: HasModel(raw, model) && k.minor == Some(ComposeLogicalModelId(k.major, model.key))
      && ((StatesFacts(raw) && ModelHas(model.value, raw, tag)) || (tag == "long_context" && HasLongWindow(model.value)))
  }

  // ---------------------------------------------------------------- the functions of the index mean this

  lemma TextsMean(values: seq<Json>, name: string)
    ensures name in Texts(values) <==> Str(name) in values
  {
    if Str(name) in values {
      var i :| 0 <= i < |values| && values[i] == Str(name);
      assert values[i].text == name;
    }
  }

  lemma TextsAtMean(v: Json, key: string, name: string)
    ensures name in TextsAt(v, key) <==> Lists(Member(v, key), name)
  {
    hide Member, Texts;
    if AsArray(Member(v, key)).Some? {
      TextsMean(AsArray(Member(v, key)).value, name);
    }
  }

  lemma WireMeans(raw: Json, name: string)
    ensures name in CollectWireCapabilities(raw) <==> Advertises(raw, name)
  {
    hide Member, Texts, Second, Third, Pointer, Lists, TextsAt;
    var caps := Member(raw, "capabilities");
    if caps.Some? {
      PointerTwo(caps.value, "feature_flags", "extended_thinking");
      PointerThree(caps.value, "tool_calling", "native", "supported");
      TextsAtMean(caps.value, "required", name);
      TextsAtMean(caps.value, "optional", name);
      ListedNames(caps.value, name);
      assert caps == Some(caps.value);
    } else {
      NothingListed(name);
    }
  }

  lemma NothingListed(name: string)
    ensures !Lists(None, name)
  {
  }

  lemma ListedNames(v: Json, name: string)
    ensures Lists(Some(v), name) <==> v.Arr? && name in Texts(v.entries)
  {
    hide Texts;
    if v.Arr? {
      TextsMean(v.entries, name);
    }
  }

  lemma VisionMeans(raw: Json)
    ensures HasVisionHint(raw, CollectWireCapabilities(raw)) <==> ShowsVision(raw)
  {
    hide Member, CollectWireCapabilities, Advertises, Second, Pointer, Lists, TextsAt;
    WireMeans(raw, "vision");
    PointerTwo(raw, "multimodal", "vision");
    TextsAtMean(raw, "multimodal", "vision");
    TextsAtMean(raw, "multimodal", "image");
  }

  lemma AnyWireMeans(e: TagEntry, raw: Json)
    ensures AnyWire(e, CollectWireCapabilities(raw)) <==> exists i :: 0 <= i < |e.wire| && Advertises(raw, e.wire[i])
  {
    hide CollectWireCapabilities, Advertises;
    forall i | 0 <= i < |e.wire|
      ensures e.wire[i] in CollectWireCapabilities(raw) <==> Advertises(raw, e.wire[i])
    {
      WireMeans(raw, e.wire[i]);
    }
  }

  lemma ProviderMeans(e: TagEntry, raw: Json)
    requires e in Table()
    ensures ProviderMatchesTag(e, raw, CollectWireCapabilities(raw)) <==> ProviderHas(raw, e.tag)
  {
    hide CollectWireCapabilities, Advertises, HasVisionHint, ShowsVision, AnyWire;
    VisionMeans(raw);
    AnyWireMeans(e, raw);
    if |e.wire| > 0 {
      assert Advertises(raw, e.wire[0]) ==> exists i :: 0 <= i < |e.wire| && Advertises(raw, e.wire[i]);
    }
    if |e.wire| > 2 {
      assert Advertises(raw, e.wire[1]) ==> exists i :: 0 <= i < |e.wire| && Advertises(raw, e.wire[i]);
      assert Advertises(raw, e.wire[2]) ==> exists i :: 0 <= i < |e.wire| && Advertises(raw, e.wire[i]);
    }
  }

  lemma FactMeans(meta: Json, key: string)
    ensures var k := FromOption(ModelBool(meta, key));
            && (k == Yes <==> States(meta, key, true)) && (k == No <==> States(meta, key, false))
            && (k == Unknown <==> !States(meta, key, true) && !States(meta, key, false))
  {
    hide Member, Pointer, Second;
    PointerTwo(meta, "model_capabilities", key);
  }

  lemma DocumentsMean(meta: Json, raw: Json, provider: bool)
    requires provider <==> ProviderHas(raw, "document_understanding")
    ensures ModelDocumentUnderstanding(meta).OrProvider(provider) <==> ReadsDocuments(meta, raw)
  {
    hide Member, Pointer, Second, Texts, ProviderHas, FromOption, ModelBool, Lower, States;
    PointerTwo(meta, "modalities", "input");
    FactMeans(meta, "attachment");
    var input := AsArray(Pointer(meta, ["modalities", "input"]));
    if input.Some? {
      forall t
        ensures t in Texts(input.value) <==> Str(t) in input.value
      {
        TextsMean(input.value, t);
      }
    }
  }

  /** A model is indexed under a tag of the table exactly when its facts, or else its provider, say so. */
  lemma ModelMeans(meta: Json, e: TagEntry, raw: Json)
    requires e in Table()
    ensures ModelOffers(meta, e, raw) <==> ModelHas(meta, raw, e.tag)
  {
    hide CollectWireCapabilities, ProviderHas, ProviderMatchesTag, ModelDocumentUnderstanding, ReadsDocuments, FromOption,
         ModelBool, FactOrProvider, Table;
    ProviderMeans(e, raw);
    FactRule(meta, "reasoning", raw, e.tag);
    FactRule(meta, "tool_call", raw, e.tag);
    DocumentsMean(meta, raw, ProviderHas(raw, "document_understanding"));
  }

  lemma FactRule(meta: Json, fact: string, raw: Json, tag: string)
    ensures FromOption(ModelBool(meta, fact)).OrProvider(ProviderHas(raw, tag)) <==> FactOrProvider(meta, fact, raw, tag)
  {
    hide ProviderHas, FromOption, ModelBool, States;
    FactMeans(meta, fact);
  }

  lemma LongMeans(meta: Json)
    ensures IsLong(meta) <==> HasLongWindow(meta)
  {
    hide Member, AllDigits, DigitsValue;
  }

  lemma ModelsMean(raw: Json, model: Field)
    ensures model in ModelFields(raw) <==> HasModel(raw, model)
  {
    hide Member, Pointer, Second;
    PointerTwo(raw, "metadata", "models");
    if model in ModelFields(raw) {
      assert Second(raw, "metadata", "models") == Some(Obj(ModelFields(raw)));
    }
  }

  lemma AnnotatedMeans(raw: Json)
    ensures Annotated(raw) <==> StatesFacts(raw)
  {
    hide Member, ModelFields, HasModel;
    forall model
      ensures model in ModelFields(raw) <==> HasModel(raw, model)
    {
      ModelsMean(raw, model);
    }
    if Annotated(raw) {
      var i :| 0 <= i < |ModelFields(raw)|
               && (Member(ModelFields(raw)[i].value, "model_capabilities").Some? || Member(ModelFields(raw)[i].value, "modalities").Some?);
      assert HasModel(raw, ModelFields(raw)[i]);
    }
    if StatesFacts(raw) {
      var model :| HasModel(raw, model)
                   && (Member(model.value, "model_capabilities").Some? || Member(model.value, "modalities").Some?);
      var i :| 0 <= i < |ModelFields(raw)| && ModelFields(raw)[i] == model;
    }
  }

  lemma ProviderIdMeans(file: ManifestFile, raw: Json, provider: string)
    ensures provider == ProviderId(file, raw) <==> IsProvider(file, raw, provider)
  {
    hide Member, Trim;
  }

  lemma TableHas(tag: string)
    ensures ProviderTag(tag) ==> exists e :: e in Table() && e.tag == tag
  {
    var t := Table();
    assert t[0] in t && t[1] in t && t[3] in t && t[4] in t;
  }

  predicate ProviderTag(tag: string)
  {
    tag == "high-reasoning" || tag == "coding" || tag == "tool_calling" || tag == "document_understanding"
  }

  lemma OffersModelMeans(raw: Json, tag: string, k: Key)
    ensures OffersModel(raw, tag, k)
            <==> exists model :: HasModel(raw, model) && ModelHas(model.value, raw, tag)
                                 && k.minor == Some(ComposeLogicalModelId(k.major, model.key))
  {
    hide ModelHas, ModelOffers, HasModel, ModelFields, Table, ComposeLogicalModelId;
    forall model
      ensures model in ModelFields(raw) <==> HasModel(raw, model)
    {
      ModelsMean(raw, model);
    }
    forall e, model: Field | e in Table()
      ensures ModelOffers(model.value, e, raw) <==> ModelHas(model.value, raw, e.tag)
    {
      ModelMeans(model.value, e, raw);
    }
    if model :| HasModel(raw, model) && ModelHas(model.value, raw, tag) && k.minor == Some(ComposeLogicalModelId(k.major, model.key)) {
      KnownTag(model.value, raw, tag);
      TableHas(tag);
      var e :| e in Table() && e.tag == tag;
      assert ModelOffers(model.value, e, raw);
    }
  }

  lemma KnownTag(meta: Json, raw: Json, tag: string)
    ensures ModelHas(meta, raw, tag) || ProviderHas(raw, tag) ==> ProviderTag(tag)
  {
    hide FactOrProvider, ReadsDocuments, Advertises, ShowsVision;
  }

  lemma OffersProviderMeans(raw: Json, tag: string, k: Key)
    ensures OffersProvider(raw, tag, k) <==> k.minor.None? && ProviderHas(raw, tag)
  {
    hide ProviderHas, ProviderMatchesTag, Table, CollectWireCapabilities;
    forall e | e in Table()
      ensures ProviderMatchesTag(e, raw, CollectWireCapabilities(raw)) <==> ProviderHas(raw, e.tag)
    {
      ProviderMeans(e, raw);
    }
    if ProviderHas(raw, tag) {
      KnownTag(Null, raw, tag);
      TableHas(tag);
    }
  }

  lemma OffersLongMeans(raw: Json, tag: string, k: Key)
    ensures OffersLong(raw, tag, k)
            <==> tag == "long_context"
                 && exists model :: HasModel(raw, model) && HasLongWindow(model.value)
                                    && k.minor == Some(ComposeLogicalModelId(k.major, model.key))
  {
    hide IsLong, HasLongWindow, HasModel, ModelFields, ComposeLogicalModelId;
    forall model: Field
      ensures (model in ModelFields(raw) <==> HasModel(raw, model)) && (IsLong(model.value) <==> HasLongWindow(model.value))
    {
      ModelsMean(raw, model);
      LongMeans(model.value);
    }
  }

  lemma OffersExactly(file: ManifestFile, tag: string, k: Key)
    ensures Offers(file, tag, k) <==> Declares(file, tag, k)
  {
    if file.raw.Some? {
      hide OffersLong, OffersModel, OffersProvider, ProviderId, IsProvider, Annotated, StatesFacts, ProviderHas, ModelHas, HasModel,
           HasLongWindow, ComposeLogicalModelId;
      var raw := file.raw.value;
      OffersLongMeans(raw, tag, k);
      OffersModelMeans(raw, tag, k);
      OffersProviderMeans(raw, tag, k);
      ProviderIdMeans(file, raw, k.major);
      AnnotatedMeans(raw);
    }
  }

  /** A tag's list has a row for a key exactly when some manifest declares it. */
  lemma RowsExactly(files: seq<ManifestFile>, tag: string, k: Key)
    ensures FirstWith(IndexRows(files, tag), KeyOf, k).Some?
            <==> exists i :: 0 <= i < |files| && Declares(files[i], tag, k)
  {
    hide IndexRows, FirstWith, KeyOf, Declares, Offers, Increasing;
    IndexExact(files, tag);
    forall i | 0 <= i < |files|
      ensures Offers(files[i], tag, k) <==> Declares(files[i], tag, k)
    {
      OffersExactly(files[i], tag, k);
    }
  }

  /**
   The three-valued rule for one model of a manifest: true puts it under the tag and false keeps it out, whatever the provider
   advertises; a fact that is missing leaves it to the provider.
   */
  lemma FactDecides(src: Source, model: Field, e: TagEntry)
    requires src.wire == CollectWireCapabilities(src.raw) && e in Table()
    ensures var listed, meta := Hits(ModelHit(src, model, e), e.tag, ModelKey(src, model)), model.value;
            && (e.tag == "high-reasoning" ==>
                && (States(meta, "reasoning", true) ==> listed) && (States(meta, "reasoning", false) ==> !listed)
                && (Second(meta, "model_capabilities", "reasoning").None? ==> (listed <==> Advertises(src.raw, "reasoning"))))
            && (e.tag == "coding" ==>
                && (States(meta, "tool_call", true) ==> listed) && (States(meta, "tool_call", false) ==> !listed)
                && (Second(meta, "model_capabilities", "tool_call").None? ==> (listed <==> Advertises(src.raw, "tools"))))
            && (e.tag == "tool_calling" ==>
                && (States(meta, "tool_call", true) ==> listed) && (States(meta, "tool_call", false) ==> !listed)
                && (Second(meta, "model_capabilities", "tool_call").None? ==>
                    (listed <==> Advertises(src.raw, "tools") || Advertises(src.raw, "parallel_tools") || Advertises(src.raw, "agentic"))))
            && (e.tag == "document_understanding" ==> (listed <==> ReadsDocuments(meta, src.raw)))
            && (e.tag == "speed" || e.tag == "long_context" ==> !listed)
  {
    hide Hits, ModelHit, ModelKey, ModelOffers, Second, Advertises, ShowsVision, ReadsDocuments, Table;
    ModelHitExact(src, model, e, e.tag, ModelKey(src, model));
    ModelMeans(model.value, e, src.raw);
    AnswersOnce(model.value, "reasoning");
    AnswersOnce(model.value, "tool_call");
  }

  /** In particular a model that states it can reason has its row, whatever its provider and the other manifests say. */
  lemma TrueFactIsListed(files: seq<ManifestFile>, i: nat, model: Field, provider: string)
    requires i < |files| && files[i].raw.Some? && IsProvider(files[i], files[i].raw.value, provider)
    requires HasModel(files[i].raw.value, model) && States(model.value, "reasoning", true)
    ensures var k := Key(provider, Some(ComposeLogicalModelId(provider, model.key)));
            FirstWith(IndexRows(files, "high-reasoning"), KeyOf, k).Some?
  {
    hide IndexRows, FirstWith, KeyOf, IsProvider, HasModel, ComposeLogicalModelId;
    var raw := files[i].raw.value;
    var k := Key(provider, Some(ComposeLogicalModelId(provider, model.key)));
    assert StatesFacts(raw) && ModelHas(model.value, raw, "high-reasoning");
    assert Declares(files[i], "high-reasoning", k);
    RowsExactly(files, "high-reasoning", k);
  }

  lemma AnswersOnce(meta: Json, fact: string)
    ensures !(States(meta, fact, true) && States(meta, fact, false))
  {
    hide Second;
  }

  // ---------------------------------------------------------------- what a row says

  /** The features a tag asks for, as they are shown. */
  function Asked(tag: string): string
  {
    if tag == "high-reasoning" then "reasoning"
    else if tag == "coding" then "tools"
    else if tag == "document_understanding" then "vision"
    else if tag == "tool_calling" then "tools|parallel_tools|agentic"
    else ""
  }

  lemma AskedIs(e: TagEntry)
    requires e in Table()
    ensures JoinedWire(e.wire) == Asked(e.tag)
  {
    JoinOne("tools");
    JoinOne("agentic");
    JoinMore("parallel_tools", ["agentic"]);
    JoinMore("tools", ["parallel_tools", "agentic"]);
    hide JoinedWire;
    assert ["parallel_tools"] + ["agentic"] == ["parallel_tools", "agentic"];
    assert ["tools"] + ["parallel_tools", "agentic"] == ["tools", "parallel_tools", "agentic"];
    assert "parallel_tools" + "|" + "agentic" == "parallel_tools|agentic";
    assert "tools" + "|" + "parallel_tools|agentic" == "tools|parallel_tools|agentic";
    JoinOne("reasoning");
    JoinOne("vision");
  }

  lemma JoinOne(w: string)
    ensures JoinedWire([w]) == w && JoinedWire([]) == ""
  {
  }

  lemma JoinMore(w: string, rest: seq<string>)
    requires rest != []
    ensures JoinedWire([w] + rest) == w + "|" + JoinedWire(rest)
  {
    assert ([w] + rest)[1..] == rest;
  }

  /** The row a provider gives, with the reason it shows. */
  lemma ProviderRow(src: Source, e: TagEntry)
    requires src.wire == CollectWireCapabilities(src.raw) && e in Table() && ProviderHas(src.raw, e.tag)
    ensures var kind := if e.tag == "high-reasoning" then "RequiresDistinctive" else "RequiresAny";
            ProviderHit(src, e)
            == [Hit(e.tag, Candidate(src.providerId, None, "wire match (" + kind + "): " + Asked(e.tag), src.path))]
  {
    hide CollectWireCapabilities, ProviderHas, ProviderMatchesTag, JoinedWire, Asked;
    ProviderMeans(e, src.raw);
    AskedIs(e);
    KnownTag(Null, src.raw, e.tag);
  }

  /** The row a model gives: its reason tells a stated fact from a missing one, and a fact against the provider's silence. */
  lemma ModelRow(src: Source, model: Field, e: TagEntry)
    requires src.wire == CollectWireCapabilities(src.raw) && e in Table() && ModelHas(model.value, src.raw, e.tag)
    ensures var stated := if e.tag == "document_understanding" then StatesDocuments(model.value)
                          else States(model.value, if e.tag == "high-reasoning" then "reasoning" else "tool_call", true);
            var reason := if !stated then "wire fallback (omit model fact): " + Asked(e.tag)
                          else if ProviderHas(src.raw, e.tag) then "model fact (" + Asked(e.tag) + ")"
                          else "model fact overrides empty ads (" + Asked(e.tag) + ")";
            ModelHit(src, model, e)
            == [Hit(e.tag, Candidate(src.providerId, Some(ComposeLogicalModelId(src.providerId, model.key)), reason, src.path))]
  {
    hide CollectWireCapabilities, ProviderHas, ProviderMatchesTag, JoinedWire, Asked, ModelDocumentUnderstanding, ReadsDocuments,
         FromOption, ModelBool, States, ComposeLogicalModelId, StatesDocuments;
    ProviderMeans(e, src.raw);
    ModelMeans(model.value, e, src.raw);
    AskedIs(e);
    KnownTag(model.value, src.raw, e.tag);
    FactMeans(model.value, "reasoning");
    FactMeans(model.value, "tool_call");
    StatedDocuments(model.value);
  }

  ghost predicate StatesDocuments(meta: Json)
  {
    var input := Second(meta, "modalities", "input");
    (input.Some? && input.value.Arr?) || States(meta, "attachment", true)
  }

  lemma StatedDocuments(meta: Json)
    ensures ModelDocumentUnderstanding(meta) != No ==> (ModelDocumentUnderstanding(meta) == Yes <==> StatesDocuments(meta))
  {
    hide Member, Pointer, Second, FromOption, ModelBool, Lower, States, Texts;
    PointerTwo(meta, "modalities", "input");
    FactMeans(meta, "attachment");
  }

  /** The row for a long window. */
  lemma LongRow(src: Source, model: Field)
    requires HasLongWindow(model.value)
    ensures var window := DigitsValue(Member(model.value, "context_window").value.printed);
            LongHit(src, model)
            == [Hit("long_context", Candidate(src.providerId, Some(ComposeLogicalModelId(src.providerId, model.key)),
                                              "context_window=" + Printed(window) + " >= 128000", src.path))]
  {
    hide Member, AllDigits, DigitsValue, ComposeLogicalModelId, Printed;
    PrintedLimit();
    LongMeans(model.value);
    ReasonJoined("context_window=" + Printed(WindowOf(model.value).value));
  }

  lemma ReasonJoined(s: string)
    ensures s + " >= " + "128000" == s + " >= 128000"
  {
  }

  lemma PrintedLimit()
    ensures Printed(128000) == "128000"
  {
    assert [Digit(0)] == "0" && [Digit(1)] == "1" && [Digit(2)] == "2" && [Digit(8)] == "8";
    assert Printed(1) == "1";
    assert Printed(12) == Printed(1) + "2" && "1" + "2" == "12";
    assert Printed(128) == Printed(12) + "8" && "12" + "8" == "128";
    assert Printed(1280) == Printed(128) + "0" && "128" + "0" == "1280";
    assert Printed(12800) == Printed(1280) + "0" && "1280" + "0" == "12800";
    assert Printed(128000) == Printed(12800) + "0" && "12800" + "0" == "128000";
  }

  // ---------------------------------------------------------------- whose row it is

  lemma {:induction false} HitsArePaths(hits: seq<Hit>, tag: string, k: Key, path: string)
    requires forall i :: 0 <= i < |hits| ==> hits[i].candidate.sourceFile == path
    ensures FirstWith(RowsFor(hits, tag), KeyOf, k).Some? ==> FirstWith(RowsFor(hits, tag), KeyOf, k).value.sourceFile == path
  {
    hide KeyOf;
    RowsArePaths(hits, tag, path);
    FirstWithExact(RowsFor(hits, tag), KeyOf, k);
  }

  lemma {:induction false} RowsArePaths(hits: seq<Hit>, tag: string, path: string)
    requires forall i :: 0 <= i < |hits| ==> hits[i].candidate.sourceFile == path
    ensures forall c :: c in RowsFor(hits, tag) ==> c.sourceFile == path
    decreases |hits|
  {
    if hits != [] {
      RowsArePaths(hits[..|hits| - 1], tag, path);
    }
  }

  ghost predicate FromPath(hits: seq<Hit>, path: string)
  {
    forall i :: 0 <= i < |hits| ==> hits[i].candidate.sourceFile == path
  }

  lemma FromPathAppend(a: seq<Hit>, b: seq<Hit>, path: string)
    requires FromPath(a, path) && FromPath(b, path)
    ensures FromPath(a + b, path)
  {
  }

  lemma {:induction false} ProviderPaths(src: Source, table: seq<TagEntry>)
    ensures FromPath(ProviderHits(src, table), src.path)
    decreases |table|
  {
    hide ProviderMatchesTag, JoinedWire, FromPath;
    if table == [] {
      NoPaths(src.path);
    } else {
      var init, last := table[..|table| - 1], table[|table| - 1];
      ProviderPaths(src, init);
      OnePath(ProviderHit(src, last), src.path);
      FromPathAppend(ProviderHits(src, init), ProviderHit(src, last), src.path);
    }
  }

  lemma NoPaths(path: string)
    ensures FromPath([], path)
  {
  }

  lemma OnePath(hits: seq<Hit>, path: string)
    requires hits == [] || (|hits| == 1 && hits[0].candidate.sourceFile == path)
    ensures FromPath(hits, path)
  {
  }

  lemma {:induction false} ModelOfPaths(src: Source, model: Field, table: seq<TagEntry>)
    ensures FromPath(ModelHitsOf(src, model, table), src.path)
    decreases |table|
  {
    hide ProviderMatchesTag, JoinedWire, FromPath, ModelFact, ComposeLogicalModelId;
    if table == [] {
      NoPaths(src.path);
    } else {
      var init, last := table[..|table| - 1], table[|table| - 1];
      ModelOfPaths(src, model, init);
      OnePath(ModelHit(src, model, last), src.path);
      FromPathAppend(ModelHitsOf(src, model, init), ModelHit(src, model, last), src.path);
    }
  }

  lemma {:induction false} ModelPaths(src: Source, models: seq<Field>)
    ensures FromPath(ModelHits(src, models), src.path)
    decreases |models|
  {
    hide FromPath, ModelHitsOf, Table;
    if models == [] {
      NoPaths(src.path);
    } else {
      var init, last := models[..|models| - 1], models[|models| - 1];
      ModelPaths(src, init);
      ModelOfPaths(src, last, Table());
      FromPathAppend(ModelHits(src, init), ModelHitsOf(src, last, Table()), src.path);
    }
  }

  lemma {:induction false} LongPaths(src: Source, models: seq<Field>)
    ensures FromPath(LongHits(src, models), src.path)
    decreases |models|
  {
    hide FromPath, IsLong, Printed, ComposeLogicalModelId;
    if models == [] {
      NoPaths(src.path);
    } else {
      var init, last := models[..|models| - 1], models[|models| - 1];
      LongPaths(src, init);
      OnePath(LongHit(src, last), src.path);
      FromPathAppend(LongHits(src, init), LongHit(src, last), src.path);
    }
  }

  lemma FilePaths(file: ManifestFile)
    ensures FromPath(FileHits(file), file.path)
  {
    hide FromPath, Annotated, ModelHits, ProviderHits, LongHits, ModelFields, Table, CollectWireCapabilities, ProviderId;
    if file.raw.None? {
      NoPaths(file.path);
    } else {
      var src := SourceOf(file, file.raw.value);
      ProviderPaths(src, Table());
      ModelPaths(src, ModelFields(src.raw));
      LongPaths(src, ModelFields(src.raw));
      FromPathAppend(if Annotated(src.raw) then ModelHits(src, ModelFields(src.raw)) else ProviderHits(src, Table()),
                     LongHits(src, ModelFields(src.raw)), src.path);
    }
  }

  lemma {:induction false} RowsAppend(a: seq<Hit>, b: seq<Hit>, tag: string)
    ensures RowsFor(a + b, tag) == RowsFor(a, tag) + RowsFor(b, tag)
    decreases |b|
  {
    hide RowsFor;
    if b == [] {
      assert a + b == a;
      NoRowsFor(tag);
      assert RowsFor(a, tag) + [] == RowsFor(a, tag);
    } else {
      var init, last := b[..|b| - 1], b[|b| - 1];
      assert b == init + [last] && a + b == (a + init) + [last];
      RowsAppend(a, init, tag);
      RowsStep(a + init, last, tag);
      RowsStep(init, last, tag);
    }
  }

  lemma NoRowsFor(tag: string)
    ensures RowsFor([], tag) == []
  {
  }

  /** Of several manifests that declare a key, the first one gives the row. */
  lemma {:induction false} FirstManifestWins(files: seq<ManifestFile>, tag: string, k: Key, i: nat)
    requires i < |files| && Declares(files[i], tag, k) && forall j :: 0 <= j < i ==> !Declares(files[j], tag, k)
    ensures var row := FirstWith(IndexRows(files, tag), KeyOf, k); row.Some? && row.value.sourceFile == files[i].path
  {
    hide *;
    RowsExactly(files, tag, k);
    IndexFirst(files, tag, k);
    FirstHit(files, tag, k, i);
  }

  lemma IndexFirst(files: seq<ManifestFile>, tag: string, k: Key)
    ensures FirstWith(IndexRows(files, tag), KeyOf, k) == FirstWith(RowsFor(AllHits(files), tag), KeyOf, k)
  {
    hide FirstWith, RowsFor, AllHits, KeyOf, SortDedup, Increasing;
    SortDedupExact(RowsFor(AllHits(files), tag), KeyOf);
  }

  lemma {:induction false} FirstHit(files: seq<ManifestFile>, tag: string, k: Key, i: nat)
    requires i < |files| && Declares(files[i], tag, k) && forall j :: 0 <= j < i ==> !Declares(files[j], tag, k)
    ensures var row := FirstWith(RowsFor(AllHits(files), tag), KeyOf, k); row.Some? && row.value.sourceFile == files[i].path
    decreases |files|
  {
    hide *;
    var n := |files| - 1;
    var init, last := files[..n], files[n];
    AllHitsStep(files, n);
    assert files[..n + 1] == files;
    RowsAppend(AllHits(init), FileHits(last), tag);
    FirstWithAppend(RowsFor(AllHits(init), tag), RowsFor(FileHits(last), tag), KeyOf, k);
    if i < n {
      FirstHit(init, tag, k, i);
    } else {
      NoneBefore(init, tag, k);
      OffersExactly(last, tag, k);
      FileHitsExact(last, tag, k);
      RowsExact(FileHits(last), tag, k);
      FilePaths(last);
      PathsMean(FileHits(last), last.path);
      HitsArePaths(FileHits(last), tag, k, last.path);
    }
  }

  lemma PathsMean(hits: seq<Hit>, path: string)
    requires FromPath(hits, path)
    ensures forall i :: 0 <= i < |hits| ==> hits[i].candidate.sourceFile == path
  {
  }

  lemma NoneBefore(files: seq<ManifestFile>, tag: string, k: Key)
    requires forall j :: 0 <= j < |files| ==> !Declares(files[j], tag, k)
    ensures FirstWith(RowsFor(AllHits(files), tag), KeyOf, k).None?
  {
    hide FirstWith, RowsFor, AllHits, KeyOf, Declares, Hits, Offers;
    RowsExact(AllHits(files), tag, k);
    AllHitsExact(files, tag, k);
    forall j | 0 <= j < |files|
      ensures !Offers(files[j], tag, k)
    {
      OffersExactly(files[j], tag, k);
    }
  }
}
