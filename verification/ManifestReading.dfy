/**
 What reading a manifest means, member by member: which JSON values are manifests, and what each member says. Lists and
 optional members may be missing, `null` is no value where one may be missing, and the step cap defaults to 8.
 */
module ManifestReading {
  import opened Wrappers
  import opened JsonTree
  import opened TaskGraph
  import opened ManifestJson

  predicate ReadsText(m: Option<Json>, s: string)
  {
    m == Some(Str(s))
  }

  predicate ReadsOptText(m: Option<Json>, s: Option<string>)
  {
    if s.Some? then m == Some(Str(s.value)) else m == None || m == Some(Null)
  }

  /** A list of strings; `None` reads as the empty list. */
  predicate ReadsTexts(m: Option<Json>, texts: seq<string>)
  {
    if m.None? then texts == []
    else m.value.Arr? && |m.value.entries| == |texts| && forall i :: 0 <= i < |texts| ==> m.value.entries[i] == Str(texts[i])
  }

  /** A whole number in decimal digits, at most `limit`. */
  predicate ReadsNumber(m: Option<Json>, n: nat, limit: nat)
  {
    m.Some? && m.value.Number? && m.value.printed != "" && AllDigits(m.value.printed) && DigitsValue(m.value.printed) == n <= limit
  }

  predicate ReadsOptNumber(m: Option<Json>, n: Option<nat>, limit: nat)
  {
    if n.Some? then ReadsNumber(m, n.value, limit) else m == None || m == Some(Null)
  }

  predicate ReadsLayers(m: Option<Json>, layers: seq<U8>)
  {
    if m.None? then layers == []
    else m.value.Arr? && |m.value.entries| == |layers|
         && forall i :: 0 <= i < |layers| ==> ReadsNumber(Some(m.value.entries[i]), layers[i], 255)
  }

  predicate ReadsIntent(v: Json, r: RetrieveIntent)
  {
    v.Obj? && ReadsText(Member(v, "kind"), r.kind) && ReadsOptText(Member(v, "query"), r.query)
    && ReadsOptText(Member(v, "alias"), r.alias)
  }

  predicate ReadsIntents(m: Option<Json>, intents: seq<RetrieveIntent>)
  {
    if m.None? then intents == []
    else m.value.Arr? && |m.value.entries| == |intents|
         && forall i :: 0 <= i < |intents| ==> ReadsIntent(m.value.entries[i], intents[i])
  }

  predicate ReadsContext(m: Option<Json>, layers: seq<U8>, intents: seq<RetrieveIntent>)
  {
    if m.None? then layers == [] && intents == []
    else m.value.Obj? && ReadsLayers(Member(m.value, "layers"), layers) && ReadsIntents(Member(m.value, "retrieve"), intents)
  }

  predicate ReadsNode(v: Json, n: DagNode)
  {
    && ReadsText(Member(v, "id"), n.id) && ReadsText(Member(v, "task_type"), n.taskType)
    && Member(v, "model_selector").Some? && Member(Member(v, "model_selector").value, "capabilities").Some?
    && ReadsTexts(Member(Member(v, "model_selector").value, "capabilities"), n.capabilities)
    && ReadsContext(Member(v, "context_requirements"), n.layers, n.retrieve)
    && ReadsOptNumber(Member(v, "max_steps"), n.maxSteps, 4294967295)
    && ReadsOptText(Member(v, "next"), n.next) && ReadsTexts(Member(v, "fork"), n.fork)
    && ReadsOptText(Member(v, "artifact"), n.artifact) && ReadsOptText(Member(v, "sigma"), n.sigma)
    && ReadsOptText(Member(v, "locus"), n.locus)
  }

  predicate ReadsNodes(m: Option<Json>, nodes: seq<DagNode>)
  {
    m.Some? && m.value.Arr? && |m.value.entries| == |nodes| && forall i :: 0 <= i < |nodes| ==> ReadsNode(m.value.entries[i], nodes[i])
  }

  predicate ReadsManifest(v: Json, dag: DagManifest)
  {
    && ReadsText(Member(v, "schema_version"), dag.schemaVersion) && ReadsText(Member(v, "id"), dag.id)
    && ReadsOptText(Member(v, "description"), dag.description) && ReadsText(Member(v, "entry"), dag.entry)
    && (if Member(v, "max_steps").None? then dag.maxSteps == 8 else ReadsNumber(Member(v, "max_steps"), dag.maxSteps, 4294967295))
    && ReadsOptNumber(Member(v, "timeout_secs"), dag.timeoutSecs, 18446744073709551615)
    && ReadsNodes(Member(v, "nodes"), dag.nodes)
  }

  lemma TextRead(m: Option<Json>, s: string)
    ensures DecodeText(m) == Some(s) <==> ReadsText(m, s)
  {
  }

  lemma OptTextRead(m: Option<Json>, s: Option<string>)
    ensures DecodeOptText(m) == Some(s) <==> ReadsOptText(m, s)
  {
  }

  lemma OptNumRead(m: Option<Json>, n: Option<nat>, limit: nat)
    ensures DecodeOptNum(m, limit) == Some(n) <==> ReadsOptNumber(m, n, limit)
  {
    hide AllDigits, DigitsValue;
  }

  /** A list is read when every entry is. */
  lemma ListRead<T>(values: seq<Json>, f: Json -> Option<T>, items: seq<T>)
    ensures TryAll(values, f) == Some(items)
            <==> |values| == |items| && forall i :: 0 <= i < |items| ==> f(values[i]) == Some(items[i])
  {
    hide TryAll;
    TryAllExact(values, f);
    if |values| == |items| && forall i :: 0 <= i < |items| ==> f(values[i]) == Some(items[i]) {
      assert TryAll(values, f).Some?;
      assert TryAll(values, f).value == items;
    }
  }

  lemma TextsRead(m: Option<Json>, texts: seq<string>)
    ensures DecodeTexts(m) == Some(texts) <==> ReadsTexts(m, texts)
  {
    hide TryAll;
    if m.Some? && m.value.Arr? {
      ListRead(m.value.entries, TextOf, texts);
    }
  }

  lemma LayersRead(m: Option<Json>, layers: seq<U8>)
    ensures DecodeLayers(m) == Some(layers) <==> ReadsLayers(m, layers)
  {
    hide TryAll, AllDigits, DigitsValue;
    if m.Some? && m.value.Arr? {
      ListRead(m.value.entries, DecodeLayer, layers);
    }
  }

  lemma IntentRead(v: Json, r: RetrieveIntent)
    ensures DecodeRetrieve(v) == Some(r) <==> ReadsIntent(v, r)
  {
    hide Member, DecodeText, DecodeOptText, ReadsText, ReadsOptText;
    TextRead(Member(v, "kind"), r.kind);
    OptTextRead(Member(v, "query"), r.query);
    OptTextRead(Member(v, "alias"), r.alias);
  }

  lemma IntentsRead(m: Option<Json>, intents: seq<RetrieveIntent>)
    ensures DecodeRetrieves(m) == Some(intents) <==> ReadsIntents(m, intents)
  {
    hide TryAll, DecodeRetrieve, ReadsIntent;
    if m.Some? && m.value.Arr? {
      var entries := m.value.entries;
      ListRead(entries, DecodeRetrieve, intents);
      if |entries| == |intents| {
        forall i | 0 <= i < |intents|
          ensures DecodeRetrieve(entries[i]) == Some(intents[i]) <==> ReadsIntent(entries[i], intents[i])
        {
          IntentRead(entries[i], intents[i]);
        }
      }
    }
  }

  lemma ContextRead(m: Option<Json>, layers: seq<U8>, intents: seq<RetrieveIntent>)
    ensures DecodeContext(m) == Some((layers, intents)) <==> ReadsContext(m, layers, intents)
  {
    hide Member, DecodeLayers, DecodeRetrieves, ReadsLayers, ReadsIntents;
    if m.Some? {
      LayersRead(Member(m.value, "layers"), layers);
      IntentsRead(Member(m.value, "retrieve"), intents);
    }
  }

  lemma SelectorRead(m: Option<Json>, capabilities: seq<string>)
    ensures DecodeSelector(m) == Some(capabilities)
            <==> m.Some? && Member(m.value, "capabilities").Some? && ReadsTexts(Member(m.value, "capabilities"), capabilities)
  {
    hide Member, DecodeTexts, ReadsTexts;
    if m.Some? {
      TextsRead(Member(m.value, "capabilities"), capabilities);
    }
  }

  /** A node is read as `n` exactly when its members say so. */
  lemma NodeRead(v: Json, n: DagNode)
    ensures DecodeNode(v) == Some(n) <==> ReadsNode(v, n)
  {
    hide Member, DecodeText, DecodeOptText, DecodeOptNum, DecodeTexts, DecodeSelector, DecodeContext,
         ReadsText, ReadsOptText, ReadsOptNumber, ReadsTexts, ReadsContext;
    TextRead(Member(v, "id"), n.id);
    TextRead(Member(v, "task_type"), n.taskType);
    SelectorRead(Member(v, "model_selector"), n.capabilities);
    ContextRead(Member(v, "context_requirements"), n.layers, n.retrieve);
    OptNumRead(Member(v, "max_steps"), n.maxSteps, U32_MAX);
    OptTextRead(Member(v, "next"), n.next);
    TextsRead(Member(v, "fork"), n.fork);
    OptTextRead(Member(v, "artifact"), n.artifact);
    OptTextRead(Member(v, "sigma"), n.sigma);
    OptTextRead(Member(v, "locus"), n.locus);
  }

  lemma NodesRead(m: Option<Json>, nodes: seq<DagNode>)
    ensures DecodeNodes(m) == Some(nodes) <==> ReadsNodes(m, nodes)
  {
    hide TryAll, DecodeNode, ReadsNode;
    if m.Some? && m.value.Arr? {
      var entries := m.value.entries;
      ListRead(entries, DecodeNode, nodes);
      if |entries| == |nodes| {
        forall i | 0 <= i < |nodes|
          ensures DecodeNode(entries[i]) == Some(nodes[i]) <==> ReadsNode(entries[i], nodes[i])
        {
          NodeRead(entries[i], nodes[i]);
        }
      }
    }
  }

  lemma MaxStepsRead(m: Option<Json>, n: U32)
    ensures DecodeMaxSteps(m) == Some(n) <==> if m.None? then n == 8 else ReadsNumber(m, n, 4294967295)
  {
    hide AllDigits, DigitsValue;
  }

  /** A JSON value is read as the manifest `dag` exactly when its members say so. */
  lemma ManifestRead(v: Json, dag: DagManifest)
    ensures DecodeManifest(v) == Some(dag) <==> ReadsManifest(v, dag)
  {
    hide Member, DecodeText, DecodeOptText, DecodeOptNum, DecodeMaxSteps, DecodeNodes,
         ReadsText, ReadsOptText, ReadsNumber, ReadsOptNumber, ReadsNodes;
    TextRead(Member(v, "schema_version"), dag.schemaVersion);
    TextRead(Member(v, "id"), dag.id);
    OptTextRead(Member(v, "description"), dag.description);
    TextRead(Member(v, "entry"), dag.entry);
    MaxStepsRead(Member(v, "max_steps"), dag.maxSteps);
    OptNumRead(Member(v, "timeout_secs"), dag.timeoutSecs, U64_MAX);
    NodesRead(Member(v, "nodes"), dag.nodes);
  }
}
