/** Task-graph manifests as JSON values: writing one, and reading one with the defaults of the manifest format. */
module ManifestJson {
  import opened Wrappers
  import opened Digraph
  import opened Decimal
  import opened JsonTree
  import opened TaskGraph

  const DEFAULT_MAX_STEPS: U32 := 8

  // ---------------------------------------------------------------- lists

  /** Applies `f` to every value; one failure fails the list. */
  function TryAll<T>(values: seq<Json>, f: Json -> Option<T>): Option<seq<T>>
  {
    if values == [] then Some([])
    else
      var n := |values| - 1;
      var init, last := TryAll(values[..n], f), f(values[n]);
      if init.Some? && last.Some? then Some(init.value + [last.value]) else None
  }

  lemma {:induction false} TryAllExact<T>(values: seq<Json>, f: Json -> Option<T>)
    ensures TryAll(values, f).Some? <==> forall i :: 0 <= i < |values| ==> f(values[i]).Some?
    ensures var r := TryAll(values, f);
            r.Some? ==> |r.value| == |values| && forall i :: 0 <= i < |values| ==> f(values[i]) == Some(r.value[i])
  {
    if values != [] {
      TryAllExact(values[..|values| - 1], f);
    }
  }

  function All<T>(items: seq<T>, g: T -> Json): (r: seq<Json>)
    ensures |r| == |items| && forall i :: 0 <= i < |items| ==> r[i] == g(items[i])
  {
    seq(|items|, i requires 0 <= i < |items| => g(items[i]))
  }

  lemma {:induction false} TryAllOfAll<T>(items: seq<T>, g: T -> Json, f: Json -> Option<T>)
    requires forall i :: 0 <= i < |items| ==> f(g(items[i])) == Some(items[i])
    ensures TryAll(All(items, g), f) == Some(items)
  {
    TryAllExact(All(items, g), f);
    var r := TryAll(All(items, g), f);
    assert r.Some?;
    assert r.value == items;
  }

  // ---------------------------------------------------------------- objects

  /** An object with the given keys. */
  function Zip(keys: seq<string>, values: seq<Json>): (r: seq<Field>)
    requires |keys| == |values|
    ensures |r| == |keys|
  {
    seq(|keys|, i requires 0 <= i < |keys| => Field(keys[i], values[i]))
  }

  lemma {:induction false} GetZip(keys: seq<string>, values: seq<Json>, i: nat)
    requires |keys| == |values| && i < |keys| && Distinct(keys)
    ensures Get(Zip(keys, values), keys[i]) == Some(values[i])
  {
    if i > 0 {
      assert Zip(keys, values)[1..] == Zip(keys[1..], values[1..]);
      assert Distinct(keys[1..]);
      GetZip(keys[1..], values[1..], i - 1);
    }
  }

  lemma {:induction false} GetZipNone(keys: seq<string>, values: seq<Json>, key: string)
    requires |keys| == |values| && key !in keys
    ensures Get(Zip(keys, values), key) == None
  {
    if keys != [] {
      assert Zip(keys, values)[1..] == Zip(keys[1..], values[1..]);
      GetZipNone(keys[1..], values[1..], key);
    }
  }

  // ---------------------------------------------------------------- scalars

  function Num(n: nat): Json
  {
    Number(Printed(n))
  }

  function OptText(s: Option<string>): Json
  {
    if s.Some? then Str(s.value) else Null
  }

  function OptNum(n: Option<nat>): Json
  {
    if n.Some? then Num(n.value) else Null
  }

  function TextOf(v: Json): Option<string>
  {
    if v.Str? then Some(v.text) else None
  }

  function DecodeText(v: Option<Json>): Option<string>
  {
    if v.Some? then TextOf(v.value) else None
  }

  /** A missing member or `null` is no value; anything but a string is an error. */
  function DecodeOptText(v: Option<Json>): Option<Option<string>>
  {
    if v.None? || v.value.Null? then Some(None)
    else if v.value.Str? then Some(Some(v.value.text))
    else None
  }

  function DecodeOptNum(v: Option<Json>, limit: nat): (r: Option<Option<nat>>)
    ensures r.Some? && r.value.Some? ==> r.value.value <= limit
  {
    if v.None? || v.value.Null? then Some(None)
    else if AsUnsigned(v, limit).Some? then Some(AsUnsigned(v, limit))
    else None
  }

  /** A list of strings that may be left out. */
  function DecodeTexts(v: Option<Json>): Option<seq<string>>
  {
    if v.None? then Some([]) else if v.value.Arr? then TryAll(v.value.entries, TextOf) else None
  }

  lemma {:induction false} PrintedValue(n: nat)
    ensures AllDigits(Printed(n)) && DigitsValue(Printed(n)) == n
  {
    var s := Printed(n);
    if n < 10 {
      assert s == [Digit(n)] && s[..0] == "";
    } else {
      PrintedValue(n / 10);
      assert s[..|s| - 1] == Printed(n / 10) && s[|s| - 1] == Digit(n % 10);
    }
  }

  lemma NumDecodes(n: nat, limit: nat)
    requires n <= limit
    ensures AsUnsigned(Some(Num(n)), limit) == Some(n)
  {
    hide DigitsValue, AllDigits, Printed;
    PrintedValue(n);
  }

  // ---------------------------------------------------------------- retrieve intents

  const U8_MAX: nat := 0xFF
  const U32_MAX: nat := 0xFFFF_FFFF
  const U64_MAX: nat := 0xFFFF_FFFF_FFFF_FFFF

  function RetrieveKeys(): seq<string>
  {
    ["kind", "query", "alias"]
  }

  function EncodeRetrieve(r: RetrieveIntent): Json
  {
    Obj(Zip(RetrieveKeys(), [Str(r.kind), OptText(r.query), OptText(r.alias)]))
  }

  function DecodeRetrieve(v: Json): Option<RetrieveIntent>
  {
    var kind := DecodeText(Member(v, "kind"));
    var query := DecodeOptText(Member(v, "query"));
    var alias := DecodeOptText(Member(v, "alias"));
    if v.Obj? && kind.Some? && query.Some? && alias.Some? then Some(RetrieveIntent(kind.value, query.value, alias.value))
    else None
  }

  lemma RetrieveDecodes(r: RetrieveIntent)
    ensures DecodeRetrieve(EncodeRetrieve(r)) == Some(r)
  {
    hide Get, Zip;
    var values := [Str(r.kind), OptText(r.query), OptText(r.alias)];
    GetZip(RetrieveKeys(), values, 0);
    GetZip(RetrieveKeys(), values, 1);
    GetZip(RetrieveKeys(), values, 2);
  }

  // ---------------------------------------------------------------- nodes

  function EncodeLayer(layer: U8): Json
  {
    Num(layer)
  }

  function DecodeLayer(v: Json): Option<U8>
  {
    AsUnsigned(Some(v), U8_MAX)
  }

  lemma LayerDecodes(layer: U8)
    ensures DecodeLayer(EncodeLayer(layer)) == Some(layer)
  {
    NumDecodes(layer, U8_MAX);
  }

  function TextJson(s: string): Json
  {
    Str(s)
  }

  function ContextKeys(): seq<string>
  {
    ["layers", "retrieve"]
  }

  function EncodeContext(layers: seq<U8>, retrieve: seq<RetrieveIntent>): Json
  {
    Obj(Zip(ContextKeys(), [Arr(All(layers, EncodeLayer)), Arr(All(retrieve, EncodeRetrieve))]))
  }

  function DecodeLayers(v: Option<Json>): Option<seq<U8>>
  {
    if v.None? then Some([]) else if v.value.Arr? then TryAll(v.value.entries, DecodeLayer) else None
  }

  function DecodeRetrieves(v: Option<Json>): Option<seq<RetrieveIntent>>
  {
    if v.None? then Some([]) else if v.value.Arr? then TryAll(v.value.entries, DecodeRetrieve) else None
  }

  function DecodeContext(v: Option<Json>): Option<(seq<U8>, seq<RetrieveIntent>)>
  {
    if v.None? then Some(([], []))
    else
      var layers := DecodeLayers(Member(v.value, "layers"));
      var retrieve := DecodeRetrieves(Member(v.value, "retrieve"));
      if v.value.Obj? && layers.Some? && retrieve.Some? then Some((layers.value, retrieve.value)) else None
  }

  lemma ContextDecodes(layers: seq<U8>, retrieve: seq<RetrieveIntent>)
    ensures DecodeContext(Some(EncodeContext(layers, retrieve))) == Some((layers, retrieve))
  {
    hide Get, Zip, EncodeLayer, DecodeLayer, EncodeRetrieve, DecodeRetrieve, TryAll, All;
    var values := [Arr(All(layers, EncodeLayer)), Arr(All(retrieve, EncodeRetrieve))];
    GetZip(ContextKeys(), values, 0);
    GetZip(ContextKeys(), values, 1);
    forall i | 0 <= i < |layers|
      ensures DecodeLayer(EncodeLayer(layers[i])) == Some(layers[i])
    {
      LayerDecodes(layers[i]);
    }
    TryAllOfAll(layers, EncodeLayer, DecodeLayer);
    forall i | 0 <= i < |retrieve|
      ensures DecodeRetrieve(EncodeRetrieve(retrieve[i])) == Some(retrieve[i])
    {
      RetrieveDecodes(retrieve[i]);
    }
    TryAllOfAll(retrieve, EncodeRetrieve, DecodeRetrieve);
  }

  lemma TextsDecode(texts: seq<string>)
    ensures DecodeTexts(Some(Arr(All(texts, TextJson)))) == Some(texts)
  {
    hide TryAll, All;
    TryAllOfAll(texts, TextJson, TextOf);
  }

  function SelectorKeys(): seq<string>
  {
    ["capabilities"]
  }

  function EncodeSelector(capabilities: seq<string>): Json
  {
    Obj(Zip(SelectorKeys(), [Arr(All(capabilities, TextJson))]))
  }

  /** The capabilities are required, unlike other lists. */
  function DecodeSelector(v: Option<Json>): Option<seq<string>>
  {
    if v.Some? && Member(v.value, "capabilities").Some? then DecodeTexts(Member(v.value, "capabilities")) else None
  }

  lemma SelectorDecodes(capabilities: seq<string>)
    ensures Member(EncodeSelector(capabilities), "capabilities") == Some(Arr(All(capabilities, TextJson)))
    ensures DecodeSelector(Some(EncodeSelector(capabilities))) == Some(capabilities)
  {
    hide Get, Zip, TryAll, All;
    GetZip(SelectorKeys(), [Arr(All(capabilities, TextJson))], 0);
    TextsDecode(capabilities);
  }

  function NodeKeys(): seq<string>
  {
    ["id", "task_type", "model_selector", "context_requirements", "max_steps", "next", "fork", "artifact", "sigma", "locus"]
  }

  function NodeValues(n: DagNode): (r: seq<Json>)
    ensures |r| == |NodeKeys()|
  {
    [Str(n.id), Str(n.taskType), EncodeSelector(n.capabilities), EncodeContext(n.layers, n.retrieve), OptNum(n.maxSteps),
     OptText(n.next), Arr(All(n.fork, TextJson)), OptText(n.artifact), OptText(n.sigma), OptText(n.locus)]
  }

  function EncodeNode(n: DagNode): Json
  {
    Obj(Zip(NodeKeys(), NodeValues(n)))
  }

  function DecodeNode(v: Json): Option<DagNode>
  {
    var id, taskType := DecodeText(Member(v, "id")), DecodeText(Member(v, "task_type"));
    var capabilities := DecodeSelector(Member(v, "model_selector"));
    var context := DecodeContext(Member(v, "context_requirements"));
    var maxSteps := DecodeOptNum(Member(v, "max_steps"), U32_MAX);
    var next := DecodeOptText(Member(v, "next"));
    var fork := DecodeTexts(Member(v, "fork"));
    var artifact := DecodeOptText(Member(v, "artifact"));
    var sigma := DecodeOptText(Member(v, "sigma"));
    var locus := DecodeOptText(Member(v, "locus"));
    if id.Some? && taskType.Some? && capabilities.Some? && context.Some? && maxSteps.Some? && next.Some? && fork.Some?
       && artifact.Some? && sigma.Some? && locus.Some?
    then Some(DagNode(id.value, taskType.value, capabilities.value, context.value.0, context.value.1, maxSteps.value,
                      next.value, fork.value, artifact.value, sigma.value, locus.value))
    else None
  }

  lemma NodeKeysDistinct()
    ensures Distinct(NodeKeys())
    ensures "source" !in NodeKeys()
  {
    var k := NodeKeys();
    assert |k[0]| == 2 && |k[1]| == 9 && |k[2]| == 14 && |k[3]| == 20 && |k[4]| == 9;
    assert |k[5]| == 4 && |k[6]| == 4 && |k[7]| == 8 && |k[8]| == 5 && |k[9]| == 5;
    assert k[1][0] == 't' && k[4][0] == 'm' && k[5][0] == 'n' && k[6][0] == 'f' && k[8][0] == 's' && k[9][0] == 'l';
  }

  /** Reading the written node's members back. */
  lemma NodeMember(n: DagNode, i: nat)
    requires i < |NodeKeys()|
    ensures Member(EncodeNode(n), NodeKeys()[i]) == Some(NodeValues(n)[i])
  {
    hide Get, Zip, NodeKeys, NodeValues;
    NodeKeysDistinct();
    GetZip(NodeKeys(), NodeValues(n), i);
  }

  lemma NodeMembers(n: DagNode)
    ensures var v := EncodeNode(n);
            && Member(v, "id") == Some(Str(n.id)) && Member(v, "task_type") == Some(Str(n.taskType))
            && Member(v, "model_selector") == Some(EncodeSelector(n.capabilities))
            && Member(v, "context_requirements") == Some(EncodeContext(n.layers, n.retrieve))
            && Member(v, "max_steps") == Some(OptNum(n.maxSteps))
            && Member(v, "next") == Some(OptText(n.next)) && Member(v, "fork") == Some(Arr(All(n.fork, TextJson)))
            && Member(v, "artifact") == Some(OptText(n.artifact)) && Member(v, "sigma") == Some(OptText(n.sigma))
            && Member(v, "locus") == Some(OptText(n.locus))
            && Member(v, "source") == None
  {
    hide Get, Zip, Member, EncodeSelector, EncodeContext, OptText, OptNum, All, EncodeNode;
    NodeMember(n, 0);
    NodeMember(n, 1);
    NodeMember(n, 2);
    NodeMember(n, 3);
    NodeMember(n, 4);
    NodeMember(n, 5);
    NodeMember(n, 6);
    NodeMember(n, 7);
    NodeMember(n, 8);
    NodeMember(n, 9);
    NoSourceMember(n);
  }

  lemma NoSourceMember(n: DagNode)
    ensures Member(EncodeNode(n), "source") == None
  {
    hide Get, Zip, NodeKeys, NodeValues;
    NodeKeysDistinct();
    GetZipNone(NodeKeys(), NodeValues(n), "source");
  }

  lemma OptTextDecodes(s: Option<string>)
    ensures DecodeOptText(Some(OptText(s))) == Some(s)
  {
  }

  lemma OptNumDecodes(n: Option<nat>, limit: nat)
    requires n.Some? ==> n.value <= limit
    ensures DecodeOptNum(Some(OptNum(n)), limit) == Some(n)
  {
    if n.Some? {
      NumDecodes(n.value, limit);
    }
  }

  lemma NodeDecodes(n: DagNode)
    ensures DecodeNode(EncodeNode(n)) == Some(n)
  {
    hide Member, EncodeNode, DecodeSelector, DecodeContext, DecodeOptText, DecodeOptNum, DecodeTexts,
         EncodeSelector, EncodeContext, OptText, OptNum, All;
    NodeMembers(n);
    SelectorDecodes(n.capabilities);
    ContextDecodes(n.layers, n.retrieve);
    OptNumDecodes(n.maxSteps, U32_MAX);
    OptTextDecodes(n.next);
    TextsDecode(n.fork);
    OptTextDecodes(n.artifact);
    OptTextDecodes(n.sigma);
    OptTextDecodes(n.locus);
  }

  // ---------------------------------------------------------------- manifests

  function ManifestKeys(): seq<string>
  {
    ["schema_version", "id", "description", "entry", "max_steps", "timeout_secs", "nodes"]
  }

  function ManifestValues(dag: DagManifest): (r: seq<Json>)
    ensures |r| == |ManifestKeys()|
  {
    [Str(dag.schemaVersion), Str(dag.id), OptText(dag.description), Str(dag.entry), Num(dag.maxSteps),
     OptNum(dag.timeoutSecs), Arr(All(dag.nodes, EncodeNode))]
  }

  function EncodeManifest(dag: DagManifest): Json
  {
    Obj(Zip(ManifestKeys(), ManifestValues(dag)))
  }

  function DecodeNodes(v: Option<Json>): Option<seq<DagNode>>
  {
    if v.Some? && v.value.Arr? then TryAll(v.value.entries, DecodeNode) else None
  }

  function DecodeMaxSteps(v: Option<Json>): Option<U32>
  {
    if v.None? then Some(DEFAULT_MAX_STEPS) else AsUnsigned(v, U32_MAX)
  }

  function DecodeManifest(v: Json): Option<DagManifest>
  {
    var schemaVersion, id := DecodeText(Member(v, "schema_version")), DecodeText(Member(v, "id"));
    var description := DecodeOptText(Member(v, "description"));
    var entry := DecodeText(Member(v, "entry"));
    var maxSteps := DecodeMaxSteps(Member(v, "max_steps"));
    var timeoutSecs := DecodeOptNum(Member(v, "timeout_secs"), U64_MAX);
    var nodes := DecodeNodes(Member(v, "nodes"));
    if schemaVersion.Some? && id.Some? && description.Some? && entry.Some? && maxSteps.Some? && timeoutSecs.Some? && nodes.Some?
    then Some(DagManifest(schemaVersion.value, id.value, description.value, entry.value, maxSteps.value, timeoutSecs.value, nodes.value))
    else None
  }

  lemma ManifestKeysDistinct()
    ensures Distinct(ManifestKeys())
  {
    var k := ManifestKeys();
    assert |k[0]| == 14 && |k[1]| == 2 && |k[2]| == 11 && |k[3]| == 5 && |k[4]| == 9 && |k[5]| == 12 && |k[6]| == 5;
    assert k[3][0] == 'e' && k[6][0] == 'n';
  }

  lemma ManifestMember(dag: DagManifest, i: nat)
    requires i < |ManifestKeys()|
    ensures Member(EncodeManifest(dag), ManifestKeys()[i]) == Some(ManifestValues(dag)[i])
  {
    hide Get, Zip, ManifestKeys, ManifestValues;
    ManifestKeysDistinct();
    GetZip(ManifestKeys(), ManifestValues(dag), i);
  }

  lemma ManifestMembers(dag: DagManifest)
    ensures var v := EncodeManifest(dag);
            && Member(v, "schema_version") == Some(Str(dag.schemaVersion)) && Member(v, "id") == Some(Str(dag.id))
            && Member(v, "description") == Some(OptText(dag.description)) && Member(v, "entry") == Some(Str(dag.entry))
            && Member(v, "max_steps") == Some(Num(dag.maxSteps)) && Member(v, "timeout_secs") == Some(OptNum(dag.timeoutSecs))
            && Member(v, "nodes") == Some(Arr(All(dag.nodes, EncodeNode)))
  {
    hide Get, Zip, Member, OptText, OptNum, Num, All, EncodeNode, EncodeManifest;
    ManifestMember(dag, 0);
    ManifestMember(dag, 1);
    ManifestMember(dag, 2);
    ManifestMember(dag, 3);
    ManifestMember(dag, 4);
    ManifestMember(dag, 5);
    ManifestMember(dag, 6);
  }

  lemma NodesDecode(nodes: seq<DagNode>)
    ensures DecodeNodes(Some(Arr(All(nodes, EncodeNode)))) == Some(nodes)
  {
    hide TryAll, All, EncodeNode, DecodeNode;
    forall i | 0 <= i < |nodes|
      ensures DecodeNode(EncodeNode(nodes[i])) == Some(nodes[i])
    {
      NodeDecodes(nodes[i]);
    }
    TryAllOfAll(nodes, EncodeNode, DecodeNode);
  }

  /** Every manifest is read back as it was written. */
  lemma ManifestDecodes(dag: DagManifest)
    ensures DecodeManifest(EncodeManifest(dag)) == Some(dag)
  {
    hide Member, EncodeManifest, DecodeOptText, DecodeOptNum, DecodeNodes, OptText, OptNum, Num, All, AsUnsigned,
         EncodeNode;
    ManifestMembers(dag);
    OptTextDecodes(dag.description);
    NumDecodes(dag.maxSteps, U32_MAX);
    OptNumDecodes(dag.timeoutSecs, U64_MAX);
    NodesDecode(dag.nodes);
  }
}
