/**
 Validation of a planner's graph: forbidden sources, capability aliases rewritten to canonical tags, then the
 manifest checks. The text has been parsed already; nothing stands for a text that is no JSON.
 */
module CandidateDag {
  import opened Wrappers
  import opened Text
  import opened Digraph
  import opened JsonTree
  import opened TaskGraph
  import opened ManifestJson

  // ---------------------------------------------------------------- capability tags

  function Allowed(): set<string>
  {
    {"high-reasoning", "coding", "speed", "document_understanding", "tool_calling", "long_context"}
  }

  function Canonicalize(tag: string): (r: Option<string>)
  {
    var t := Trim(tag);
    if t == "high-reasoning" || t == "coding" || t == "speed" then Some(t)
    else if t == "document_understanding" || t == "document" then Some("document_understanding")
    else if t == "long_context" || t == "long-context" then Some("long_context")
    else if t in {"tool_calling", "tools", "shell.exec", "file.read", "glob.search", "shell", "file"} then Some("tool_calling")
    else None
  }

  predicate Canonical(tag: string)
  {
    tag in Allowed()
  }

  lemma CanonicalIsTrimmed(tag: string)
    requires Canonical(tag)
    ensures Trim(tag) == tag
  {
    hide TrimStart, TrimEnd;
    assert tag != "" && tag[0] in "hcsdtl" && tag[|tag| - 1] in "gdt";
    NothingToTrim(tag);
  }

  /** Canonical tags stay as they are, and whatever an alias turns into is canonical. */
  lemma CanonicalizeExact(tag: string)
    ensures Canonicalize(tag).Some? ==> Canonical(Canonicalize(tag).value)
    ensures Canonical(tag) <==> Canonicalize(tag) == Some(tag)
  {
    hide Trim;
    if Canonical(tag) {
      CanonicalIsTrimmed(tag);
    }
  }

  // ---------------------------------------------------------------- rewriting the aliases in place

  function SetGet(fields: seq<Field>, key: string, value: Json): seq<Field>
  {
    if fields == [] then []
    else if fields[0].key == key then [Field(key, value)] + fields[1..]
    else [fields[0]] + SetGet(fields[1..], key, value)
  }

  /** The object with the member replaced. */
  function SetMember(v: Json, key: string, value: Json): Json
  {
    if v.Obj? then Obj(SetGet(v.fields, key, value)) else v
  }

  lemma {:induction false} SetGetExact(fields: seq<Field>, key: string, value: Json, other: string)
    ensures Get(SetGet(fields, key, value), other)
            == if other == key && Get(fields, key).Some? then Some(value) else Get(fields, other)
  {
    if fields != [] && fields[0].key != key {
      SetGetExact(fields[1..], key, value, other);
    }
  }

  lemma {:induction false} SetGetSame(fields: seq<Field>, key: string, value: Json)
    requires Get(fields, key) == Some(value)
    ensures SetGet(fields, key, value) == fields
  {
    if fields != [] && fields[0].key != key {
      SetGetSame(fields[1..], key, value);
    }
  }

  lemma SetMemberExact(v: Json, key: string, value: Json, other: string)
    ensures Member(SetMember(v, key, value), other)
            == if other == key && Member(v, key).Some? then Some(value) else Member(v, other)
    ensures Member(v, key) == Some(value) ==> SetMember(v, key, value) == v
  {
    hide Get, SetGet;
    if v.Obj? {
      SetGetExact(v.fields, key, value, other);
      if Get(v.fields, key) == Some(value) {
        SetGetSame(v.fields, key, value);
      }
    }
  }

  function RewriteCap(cap: Json): Option<Json>
  {
    if !cap.Str? then None
    else
      var c := Canonicalize(cap.text);
      if c.Some? then Some(Str(c.value)) else None
  }

  function CapsOf(node: Json): Option<seq<Json>>
  {
    AsArray(Pointer(node, ["model_selector", "capabilities"]))
  }

  function WithCaps(node: Json, caps: seq<Json>): Json
  {
    var selector := Member(node, "model_selector");
    if selector.None? then node
    else SetMember(node, "model_selector", SetMember(selector.value, "capabilities", Arr(caps)))
  }

  lemma CapsMeans(node: Json)
    ensures var selector := Member(node, "model_selector");
            CapsOf(node) == if selector.Some? then AsArray(Member(selector.value, "capabilities")) else None
  {
    hide Member;
    assert ["model_selector", "capabilities"][1..] == ["capabilities"];
    assert ["capabilities"][1..] == [];
  }

  /** Writing the capabilities changes them and no other member. */
  lemma WithCapsExact(node: Json, caps: seq<Json>)
    requires CapsOf(node).Some?
    ensures CapsOf(WithCaps(node, caps)) == Some(caps)
    ensures CapsOf(node) == Some(caps) ==> WithCaps(node, caps) == node
    ensures forall k :: k != "model_selector" ==> Member(WithCaps(node, caps), k) == Member(node, k)
    ensures Member(WithCaps(node, caps), "model_selector").Some?
            && Member(Member(WithCaps(node, caps), "model_selector").value, "capabilities") == Some(Arr(caps))
  {
    hide Member, SetMember, CapsOf;
    var w := WithCaps(node, caps);
    CapsMeans(node);
    CapsMeans(w);
    var selector := Member(node, "model_selector").value;
    var written := SetMember(selector, "capabilities", Arr(caps));
    SetMemberExact(selector, "capabilities", Arr(caps), "capabilities");
    SetMemberExact(node, "model_selector", written, "model_selector");
    forall k | k != "model_selector"
      ensures Member(w, k) == Member(node, k)
    {
      SetMemberExact(node, "model_selector", written, k);
    }
  }

  function RewriteNode(node: Json): Option<Json>
  {
    if CapsOf(node).None? then Some(node)
    else
      var caps := TryAll(CapsOf(node).value, RewriteCap);
      if caps.None? then None else Some(WithCaps(node, caps.value))
  }

  function NodesOf(value: Json): Option<seq<Json>>
  {
    AsArray(Member(value, "nodes"))
  }

  /** Nothing when some capability is no string or no known tag. */
  function RewriteAliases(value: Json): Option<Json>
  {
    if NodesOf(value).None? then Some(value)
    else
      var nodes := TryAll(NodesOf(value).value, RewriteNode);
      if nodes.None? then None else Some(SetMember(value, "nodes", Arr(nodes.value)))
  }

  method RewriteCapabilityAliases(value: Json) returns (r: Option<Json>)
    ensures r == RewriteAliases(value)
  {
    hide TryAll, RewriteCap, CapsOf, WithCaps, Canonicalize, SetMember;
    if NodesOf(value).None? {
      return Some(value);
    }
    var nodes := NodesOf(value).value;
    var written: seq<Json> := [];
    NothingTried(nodes, RewriteNode);
    for i := 0 to |nodes|
      invariant TryAll(nodes[..i], RewriteNode) == Some(written)
    {
      TryStep(nodes, i, RewriteNode);
      if CapsOf(nodes[i]).None? {
        written := written + [nodes[i]];
        continue;
      }
      var caps := CapsOf(nodes[i]).value;
      var tags := RewriteCaps(caps);
      if tags.None? {
        TryFails(nodes, i, RewriteNode);
        return None;
      }
      written := written + [WithCaps(nodes[i], tags.value)];
    }
    assert nodes[..|nodes|] == nodes;
    return Some(SetMember(value, "nodes", Arr(written)));
  }

  method RewriteCaps(caps: seq<Json>) returns (r: Option<seq<Json>>)
    ensures r == TryAll(caps, RewriteCap)
  {
    hide TryAll, Canonicalize;
    var tags: seq<Json> := [];
    NothingTried(caps, RewriteCap);
    for j := 0 to |caps|
      invariant TryAll(caps[..j], RewriteCap) == Some(tags)
    {
      TryStep(caps, j, RewriteCap);
      var canon := if caps[j].Str? then Canonicalize(caps[j].text) else None;
      if canon.None? {
        TryFails(caps, j, RewriteCap);
        return None;
      }
      tags := tags + [Str(canon.value)];
    }
    assert caps[..|caps|] == caps;
    return Some(tags);
  }

  lemma NothingTried<T>(values: seq<Json>, f: Json -> Option<T>)
    ensures TryAll(values[..0], f) == Some([])
  {
  }

  lemma TryStep<T>(values: seq<Json>, i: nat, f: Json -> Option<T>)
    requires i < |values|
    ensures TryAll(values[..i + 1], f)
            == var init, last := TryAll(values[..i], f), f(values[i]);
               if init.Some? && last.Some? then Some(init.value + [last.value]) else None
  {
    assert values[..i + 1][..i] == values[..i];
  }

  lemma TryFails<T>(values: seq<Json>, i: nat, f: Json -> Option<T>)
    requires i < |values| && f(values[i]).None?
    ensures TryAll(values, f).None?
  {
    hide TryAll;
    TryAllExact(values, f);
  }

  lemma RewriteCapTwice(cap: Json)
    ensures RewriteCap(cap).Some? ==> RewriteCap(RewriteCap(cap).value) == RewriteCap(cap)
  {
    hide Canonicalize, Canonical;
    if RewriteCap(cap).Some? {
      CanonicalizeExact(cap.text);
      CanonicalizeExact(Canonicalize(cap.text).value);
    }
  }

  lemma TryAllTwice(values: seq<Json>, f: Json -> Option<Json>)
    requires forall i :: 0 <= i < |values| && f(values[i]).Some? ==> f(f(values[i]).value) == f(values[i])
    ensures TryAll(values, f).Some? ==> TryAll(TryAll(values, f).value, f) == TryAll(values, f)
  {
    hide TryAll;
    TryAllExact(values, f);
    if TryAll(values, f).Some? {
      var r := TryAll(values, f).value;
      TryAllExact(r, f);
      assert TryAll(r, f).Some?;
      assert TryAll(r, f).value == r;
    }
  }

  lemma RewriteNodeTwice(node: Json)
    ensures RewriteNode(node).Some? ==> RewriteNode(RewriteNode(node).value) == RewriteNode(node)
  {
    hide TryAll, RewriteCap, CapsOf, WithCaps;
    if CapsOf(node).Some? {
      var caps := CapsOf(node).value;
      forall i | 0 <= i < |caps| && RewriteCap(caps[i]).Some?
        ensures RewriteCap(RewriteCap(caps[i]).value) == RewriteCap(caps[i])
      {
        RewriteCapTwice(caps[i]);
      }
      TryAllTwice(caps, RewriteCap);
      if TryAll(caps, RewriteCap).Some? {
        var tags := TryAll(caps, RewriteCap).value;
        WithCapsExact(node, tags);
        WithCapsExact(WithCaps(node, tags), tags);
      }
    }
  }

  /** Rewriting again changes nothing. */
  lemma RewriteTwice(value: Json)
    ensures RewriteAliases(value).Some? ==> RewriteAliases(RewriteAliases(value).value) == RewriteAliases(value)
  {
    hide TryAll, RewriteNode, Member, SetMember;
    if NodesOf(value).Some? {
      var nodes := NodesOf(value).value;
      forall i | 0 <= i < |nodes| && RewriteNode(nodes[i]).Some?
        ensures RewriteNode(RewriteNode(nodes[i]).value) == RewriteNode(nodes[i])
      {
        RewriteNodeTwice(nodes[i]);
      }
      TryAllTwice(nodes, RewriteNode);
      if TryAll(nodes, RewriteNode).Some? {
        var w := Arr(TryAll(nodes, RewriteNode).value);
        SetMemberExact(value, "nodes", w, "nodes");
        SetMemberExact(SetMember(value, "nodes", w), "nodes", w, "nodes");
      }
    }
  }

  // ---------------------------------------------------------------- the verdict

  datatype Category = Accepted | ParseError | SchemaValidation | UnknownCapability | ForbiddenSource | GraphIntegrity

  function SourceKind(source: Json): string
  {
    var kind := DecodeText(Member(source, "kind"));
    if kind.Some? then kind.value else ""
  }

  predicate Forbidden(node: Json)
  {
    Member(node, "source").Some? && SourceKind(Member(node, "source").value) != "documentation"
  }

  predicate HasForbiddenSource(value: Json)
  {
    NodesOf(value).Some? && exists i :: 0 <= i < |NodesOf(value).value| && Forbidden(NodesOf(value).value[i])
  }

  method RejectForbiddenSource(value: Json) returns (rejected: bool)
    ensures rejected <==> HasForbiddenSource(value)
  {
    hide Forbidden;
    if NodesOf(value).None? {
      return false;
    }
    var nodes := NodesOf(value).value;
    for i := 0 to |nodes|
      invariant forall k :: 0 <= k < i ==> !Forbidden(nodes[k])
    {
      if Forbidden(nodes[i]) {
        return true;
      }
    }
    return false;
  }

  /** The message of a failed manifest check. */
  function Message(dag: DagManifest, e: GraphError): string
  {
    match e
    case UnsupportedSchema => "unsupported template DAG schema_version '" + dag.schemaVersion + "' (expected 0.1.0)"
    case NoNodes => "template DAG has no nodes"
    case DuplicateNode(id) => "duplicate node id '" + id + "'"
    case NoCapabilities(id) => "node '" + id + "' has empty model_selector.capabilities"
    case EntryNotFound => "entry '" + dag.entry + "' not found in nodes"
    case NextNotFound(from, to) => "node '" + from + "' next '" + to + "' not found in nodes"
  }

  /** A manifest error is about the graph when its message speaks of `next` or `entry`. */
  function MessageCategory(message: string): Category
  {
    if FindFirst(message, "next").Some? || FindFirst(message, "entry").Some? then GraphIntegrity else SchemaValidation
  }

  datatype Report = Report(category: Category, dag: Option<DagManifest>)

  function Verdict(value: Option<Json>): Report
  {
    if value.None? || !value.value.Obj? then Report(ParseError, None)
    else if HasForbiddenSource(value.value) then Report(ForbiddenSource, None)
    else
      var written := RewriteAliases(value.value);
      if written.None? then Report(UnknownCapability, None)
      else
        var dag := DecodeManifest(written.value);
        if dag.None? then Report(SchemaValidation, None)
        else
          var error := GraphErrorOf(dag.value);
          if error.None? then Report(Accepted, dag)
          else Report(MessageCategory(Message(dag.value, error.value)), None)
  }

  method ValidateCandidate(value: Option<Json>) returns (r: Report)
    ensures r == Verdict(value)
  {
    hide HasForbiddenSource, RewriteAliases, DecodeManifest, GraphErrorOf, MessageCategory, Message, ValidGraph;
    if value.None? || !value.value.Obj? {
      return Report(ParseError, None);
    }
    var rejected := RejectForbiddenSource(value.value);
    if rejected {
      return Report(ForbiddenSource, None);
    }
    var written := RewriteCapabilityAliases(value.value);
    if written.None? {
      return Report(UnknownCapability, None);
    }
    var dag := DecodeManifest(written.value);
    if dag.None? {
      return Report(SchemaValidation, None);
    }
    var error := ValidateGraph(dag.value);
    if error.Some? {
      return Report(MessageCategory(Message(dag.value, error.value)), None);
    }
    return Report(Accepted, dag);
  }

  ghost predicate CanonicalCaps(dag: DagManifest)
  {
    forall n, c :: n in dag.nodes && c in n.capabilities ==> Canonical(c)
  }

  lemma AcceptedIs(value: Option<Json>)
    ensures var r := Verdict(value);
            r.category == Accepted <==> r.dag.Some?
    ensures Verdict(value).dag.Some? ==>
              && value.Some? && value.value.Obj? && !HasForbiddenSource(value.value) && RewriteAliases(value.value).Some?
              && DecodeManifest(RewriteAliases(value.value).value) == Verdict(value).dag
              && ValidGraph(Verdict(value).dag.value)
  {
    hide HasForbiddenSource, RewriteAliases, DecodeManifest, GraphErrorOf, FindFirst, Message, ValidGraph;
    var written := if value.Some? then RewriteAliases(value.value) else None;
    if written.Some? && DecodeManifest(written.value).Some? {
      GraphErrorExact(DecodeManifest(written.value).value);
    }
  }

  lemma TextsAreThose(caps: seq<Json>, texts: seq<string>)
    requires TryAll(caps, TextOf) == Some(texts) && forall i :: 0 <= i < |caps| ==> RewriteCap(caps[i]) == Some(caps[i])
    ensures forall c :: c in texts ==> Canonical(c)
  {
    hide TryAll, Canonicalize, Canonical;
    TryAllExact(caps, TextOf);
    forall c | c in texts
      ensures Canonical(c)
    {
      var i :| 0 <= i < |texts| && texts[i] == c;
      assert TextOf(caps[i]) == Some(c);
      CanonicalizeExact(c);
    }
  }

  lemma RewrittenNodeCaps(node: Json, n: DagNode)
    requires RewriteNode(node).Some? && DecodeNode(RewriteNode(node).value) == Some(n)
    ensures forall c :: c in n.capabilities ==> Canonical(c)
  {
    hide Member, TryAll, RewriteCap, WithCaps, DecodeContext, DecodeOptNum, DecodeOptText, Canonical, CapsOf;
    var w := RewriteNode(node).value;
    CapsMeans(w);
    CapsMeans(node);
    NodeCaps(w, n);
    if CapsOf(node).Some? {
      var tags := TryAll(CapsOf(node).value, RewriteCap).value;
      WithCapsExact(node, tags);
      CapsFixed(CapsOf(node).value, tags);
      TextsAreThose(tags, n.capabilities);
    }
  }

  lemma CapsFixed(caps: seq<Json>, tags: seq<Json>)
    requires TryAll(caps, RewriteCap) == Some(tags)
    ensures forall i :: 0 <= i < |tags| ==> RewriteCap(tags[i]) == Some(tags[i])
  {
    hide TryAll, RewriteCap;
    TryAllExact(caps, RewriteCap);
    forall i | 0 <= i < |tags|
      ensures RewriteCap(tags[i]) == Some(tags[i])
    {
      RewriteCapTwice(caps[i]);
    }
  }

  lemma NodeCaps(w: Json, n: DagNode)
    requires DecodeNode(w) == Some(n)
    ensures CapsOf(w).Some? && TryAll(CapsOf(w).value, TextOf) == Some(n.capabilities)
  {
    hide Member, TryAll, DecodeContext, DecodeOptNum, DecodeOptText, CapsOf;
    CapsMeans(w);
  }

  /** An accepted graph is structurally valid and names canonical capabilities only. */
  lemma AcceptedIsCanonical(value: Option<Json>)
    requires Verdict(value).dag.Some?
    ensures ValidGraph(Verdict(value).dag.value) && CanonicalCaps(Verdict(value).dag.value)
  {
    hide *;
    var dag := Verdict(value).dag.value;
    AcceptedIs(value);
    var w := RewriteAliases(value.value).value;
    NodesDecoded(w, dag);
    if NodesOf(value.value).None? {
      NodesUnwritten(value.value);
    } else {
      RewrittenNodes(value.value);
      CanonicalNodes(NodesOf(value.value).value, NodesOf(w).value, dag);
    }
  }

  lemma NodesUnwritten(value: Json)
    requires NodesOf(value).None?
    ensures RewriteAliases(value) == Some(value)
  {
  }

  lemma CanonicalNodes(nodes: seq<Json>, written: seq<Json>, dag: DagManifest)
    requires TryAll(nodes, RewriteNode) == Some(written) && TryAll(written, DecodeNode) == Some(dag.nodes)
    ensures CanonicalCaps(dag)
  {
    hide TryAll, RewriteNode, DecodeNode, Canonical;
    TryAllExact(nodes, RewriteNode);
    TryAllExact(written, DecodeNode);
    forall n, c | n in dag.nodes && c in n.capabilities
      ensures Canonical(c)
    {
      var i :| 0 <= i < |dag.nodes| && dag.nodes[i] == n;
      RewrittenNodeCaps(nodes[i], n);
    }
  }

  lemma NodesDecoded(w: Json, dag: DagManifest)
    requires DecodeManifest(w) == Some(dag)
    ensures NodesOf(w).Some? && TryAll(NodesOf(w).value, DecodeNode) == Some(dag.nodes)
  {
    hide Member, TryAll, DecodeOptNum, DecodeOptText, DecodeMaxSteps;
  }

  lemma RewrittenNodes(value: Json)
    requires RewriteAliases(value).Some? && NodesOf(value).Some?
    ensures var w := RewriteAliases(value).value;
            NodesOf(w).Some? && TryAll(NodesOf(value).value, RewriteNode) == NodesOf(w)
  {
    hide Member, SetMember, TryAll;
    SetMemberExact(value, "nodes", Arr(TryAll(NodesOf(value).value, RewriteNode).value), "nodes");
  }

  // ---------------------------------------------------------------- written manifests

  predicate KnownCaps(n: DagNode)
  {
    forall c :: c in n.capabilities ==> Canonicalize(c).Some?
  }

  predicate KnownTags(dag: DagManifest)
  {
    forall n :: n in dag.nodes ==> KnownCaps(n)
  }

  /** The canonical tag; unknown ones stay. */
  function Canon(tag: string): string
  {
    if Canonicalize(tag).Some? then Canonicalize(tag).value else tag
  }

  function CanonCaps(caps: seq<string>): (r: seq<string>)
    ensures |r| == |caps| && forall i :: 0 <= i < |caps| ==> r[i] == Canon(caps[i])
  {
    seq(|caps|, i requires 0 <= i < |caps| => Canon(caps[i]))
  }

  function CanonNode(n: DagNode): DagNode
  {
    n.(capabilities := CanonCaps(n.capabilities))
  }

  function CanonNodes(nodes: seq<DagNode>): (r: seq<DagNode>)
    ensures |r| == |nodes| && forall i :: 0 <= i < |nodes| ==> r[i] == CanonNode(nodes[i])
  {
    seq(|nodes|, i requires 0 <= i < |nodes| => CanonNode(nodes[i]))
  }

  /** The graph with every alias replaced by its canonical tag. */
  function CanonGraph(dag: DagManifest): DagManifest
  {
    dag.(nodes := CanonNodes(dag.nodes))
  }

  lemma {:induction false} SetGetZip(keys: seq<string>, values: seq<Json>, i: nat, value: Json)
    requires |keys| == |values| && i < |keys| && Distinct(keys)
    ensures SetGet(Zip(keys, values), keys[i], value) == Zip(keys, values[i := value])
  {
    assert Zip(keys, values)[1..] == Zip(keys[1..], values[1..]);
    if i == 0 {
      assert Zip(keys, values[0 := value]) == [Field(keys[0], value)] + Zip(keys[1..], values[1..]);
    } else {
      assert Distinct(keys[1..]) && keys[0] != keys[i] == keys[1..][i - 1];
      SetGetZip(keys[1..], values[1..], i - 1, value);
      assert values[i := value][1..] == values[1..][i - 1 := value];
      assert Zip(keys, values[i := value]) == [Zip(keys, values)[0]] + Zip(keys[1..], values[1..][i - 1 := value]);
    }
  }

  lemma SelectorWritten(caps: seq<string>, written: seq<string>)
    ensures SetMember(EncodeSelector(caps), "capabilities", Arr(All(written, TextJson))) == EncodeSelector(written)
  {
    hide Zip, All, SetGet;
    SetGetZip(SelectorKeys(), [Arr(All(caps, TextJson))], 0, Arr(All(written, TextJson)));
    assert [Arr(All(caps, TextJson))][0 := Arr(All(written, TextJson))] == [Arr(All(written, TextJson))];
  }

  lemma NodeWritten(n: DagNode, written: seq<string>)
    ensures SetMember(EncodeNode(n), "model_selector", EncodeSelector(written)) == EncodeNode(n.(capabilities := written))
  {
    hide Zip, All, SetGet, EncodeSelector, EncodeContext, OptText, OptNum;
    NodeKeysDistinct();
    assert NodeKeys()[2] == "model_selector";
    SetGetZip(NodeKeys(), NodeValues(n), 2, EncodeSelector(written));
    assert NodeValues(n)[2 := EncodeSelector(written)] == NodeValues(n.(capabilities := written));
  }

  lemma WrittenCaps(caps: seq<string>)
    ensures TryAll(All(caps, TextJson), RewriteCap)
            == if forall c :: c in caps ==> Canonicalize(c).Some? then Some(All(CanonCaps(caps), TextJson)) else None
  {
    hide TryAll, Canonicalize, All;
    var texts := All(caps, TextJson);
    TryAllExact(texts, RewriteCap);
    if forall c :: c in caps ==> Canonicalize(c).Some? {
      forall i | 0 <= i < |caps|
        ensures RewriteCap(texts[i]) == Some(Str(Canon(caps[i])))
      {
        assert caps[i] in caps;
      }
      assert TryAll(texts, RewriteCap).value == All(CanonCaps(caps), TextJson);
    } else {
      var c :| c in caps && Canonicalize(c).None?;
      var i :| 0 <= i < |caps| && caps[i] == c;
      assert RewriteCap(texts[i]).None?;
    }
  }

  /** Rewriting a written node is writing the node with canonical tags. */
  lemma EncodedNodeRewritten(n: DagNode)
    ensures RewriteNode(EncodeNode(n)) == if KnownCaps(n) then Some(EncodeNode(CanonNode(n))) else None
    ensures !Forbidden(EncodeNode(n))
  {
    hide Member, TryAll, All, EncodeNode, EncodeSelector, RewriteCap, Canonicalize, CapsOf, OptText, OptNum, EncodeContext,
         SetMember, CanonCaps;
    NodeMembers(n);
    SelectorDecodes(n.capabilities);
    CapsMeans(EncodeNode(n));
    WrittenCaps(n.capabilities);
    SelectorWritten(n.capabilities, CanonCaps(n.capabilities));
    NodeWritten(n, CanonCaps(n.capabilities));
  }

  /** Rewriting a written manifest is writing the manifest with canonical tags. */
  lemma EncodedRewritten(dag: DagManifest)
    ensures RewriteAliases(EncodeManifest(dag)) == if KnownTags(dag) then Some(EncodeManifest(CanonGraph(dag))) else None
    ensures !HasForbiddenSource(EncodeManifest(dag))
  {
    hide Member, TryAll, All, EncodeNode, RewriteNode, KnownCaps, CanonNode, SetMember, Forbidden, EncodeManifest;
    var nodes := All(dag.nodes, EncodeNode);
    ManifestMembers(dag);
    forall i | 0 <= i < |nodes|
      ensures RewriteNode(nodes[i]) == if KnownCaps(dag.nodes[i]) then Some(EncodeNode(CanonNode(dag.nodes[i]))) else None
      ensures !Forbidden(nodes[i])
    {
      EncodedNodeRewritten(dag.nodes[i]);
    }
    TryAllExact(nodes, RewriteNode);
    if KnownTags(dag) {
      assert forall i :: 0 <= i < |nodes| ==> dag.nodes[i] in dag.nodes;
      assert TryAll(nodes, RewriteNode).value == All(CanonNodes(dag.nodes), EncodeNode);
      ManifestWritten(dag, CanonNodes(dag.nodes));
    } else {
      var n :| n in dag.nodes && !KnownCaps(n);
      var i :| 0 <= i < |nodes| && dag.nodes[i] == n;
      assert RewriteNode(nodes[i]).None?;
    }
  }

  lemma ManifestWritten(dag: DagManifest, nodes: seq<DagNode>)
    ensures SetMember(EncodeManifest(dag), "nodes", Arr(All(nodes, EncodeNode))) == EncodeManifest(dag.(nodes := nodes))
  {
    hide Zip, All, SetGet, OptText, OptNum, Num, EncodeNode;
    ManifestKeysDistinct();
    assert ManifestKeys()[6] == "nodes";
    SetGetZip(ManifestKeys(), ManifestValues(dag), 6, Arr(All(nodes, EncodeNode)));
    assert ManifestValues(dag)[6 := Arr(All(nodes, EncodeNode))] == ManifestValues(dag.(nodes := nodes));
  }

  /** A written manifest with known tags is judged by the manifest checks alone, with the tags made canonical; any other is rejected. */
  lemma WrittenIsJudged(dag: DagManifest)
    ensures Verdict(Some(EncodeManifest(dag))).dag
            == if KnownTags(dag) && GraphErrorOf(CanonGraph(dag)).None? then Some(CanonGraph(dag)) else None
  {
    hide KnownTags, CanonGraph, EncodeManifest, HasForbiddenSource, RewriteAliases, DecodeManifest, GraphErrorOf;
    EncodedRewritten(dag);
    ManifestDecodes(CanonGraph(dag));
    WrittenIsObject(dag);
  }

  /** Canonical tags are known and stay, and known tags become canonical. */
  lemma CanonExact(dag: DagManifest)
    ensures CanonicalCaps(dag) ==> KnownTags(dag) && CanonGraph(dag) == dag
    ensures KnownTags(dag) ==> CanonicalCaps(CanonGraph(dag))
  {
    hide Canonicalize, Canonical;
    if CanonicalCaps(dag) {
      forall i | 0 <= i < |dag.nodes|
        ensures KnownCaps(dag.nodes[i]) && CanonNode(dag.nodes[i]) == dag.nodes[i]
      {
        CanonicalNodeStays(dag.nodes[i]);
      }
      assert CanonNodes(dag.nodes) == dag.nodes;
    }
    if KnownTags(dag) {
      forall n, c | n in CanonGraph(dag).nodes && c in n.capabilities
        ensures Canonical(c)
      {
        var i :| 0 <= i < |dag.nodes| && CanonNode(dag.nodes[i]) == n;
        var j :| 0 <= j < |n.capabilities| && n.capabilities[j] == c;
        assert KnownCaps(dag.nodes[i]) && dag.nodes[i].capabilities[j] in dag.nodes[i].capabilities;
        CanonicalizeExact(dag.nodes[i].capabilities[j]);
      }
    }
  }

  lemma CanonicalNodeStays(n: DagNode)
    requires forall c :: c in n.capabilities ==> Canonical(c)
    ensures KnownCaps(n) && CanonNode(n) == n
  {
    hide Canonicalize, Canonical;
    forall i | 0 <= i < |n.capabilities|
      ensures Canonicalize(n.capabilities[i]) == Some(n.capabilities[i])
    {
      assert n.capabilities[i] in n.capabilities;
      CanonicalizeExact(n.capabilities[i]);
    }
    assert CanonCaps(n.capabilities) == n.capabilities;
  }

  /** A valid manifest with canonical capabilities, written as JSON, is accepted as it is. */
  lemma WrittenIsAccepted(dag: DagManifest)
    requires ValidGraph(dag) && CanonicalCaps(dag)
    ensures Verdict(Some(EncodeManifest(dag))) == Report(Accepted, Some(dag))
  {
    hide *;
    WrittenIsJudged(dag);
    CanonExact(dag);
    GraphErrorExact(dag);
    AcceptedIs(Some(EncodeManifest(dag)));
    var r := Verdict(Some(EncodeManifest(dag)));
    assert r == Report(r.category, r.dag);
  }

  lemma WrittenIsObject(dag: DagManifest)
    ensures EncodeManifest(dag).Obj?
  {
  }
}
