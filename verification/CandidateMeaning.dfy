/** The verdict on a planner's graph, read off the members of the JSON value. */
module CandidateMeaning {
  import opened Wrappers
  import opened Text
  import opened Digraph
  import opened JsonTree
  import opened TaskGraph
  import opened ManifestJson
  import opened CandidateDag

  // ---------------------------------------------------------------- tags

  /** Which tag each name stands for, up to white space around it. */
  lemma AliasTable(tag: string)
    ensures var t, r := Trim(tag), Canonicalize(tag);
            && (r == Some("high-reasoning") <==> t == "high-reasoning")
            && (r == Some("coding") <==> t == "coding")
            && (r == Some("speed") <==> t == "speed")
            && (r == Some("document_understanding") <==> t == "document_understanding" || t == "document")
            && (r == Some("long_context") <==> t == "long_context" || t == "long-context")
            && (r == Some("tool_calling")
                <==> t in ["tool_calling", "tools", "shell.exec", "file.read", "glob.search", "shell", "file"])
            && (r.Some? ==> r.value in ["high-reasoning", "coding", "speed", "document_understanding", "long_context", "tool_calling"])
  {
    hide Trim;
    CanonicalizeExact(tag);
  }

  // ---------------------------------------------------------------- what is rejected before decoding

  /** Some node has a source that is not documentation. */
  ghost predicate ForeignSource(v: Json)
  {
    exists nodes, i ::
      Member(v, "nodes") == Some(Arr(nodes)) && 0 <= i < |nodes| && Member(nodes[i], "source").Some?
      && Member(Member(nodes[i], "source").value, "kind") != Some(Str("documentation"))
  }

  /** Entry `j` of the capabilities of node `i` is no text, or no known tag. */
  ghost predicate BadTagAt(v: Json, nodes: seq<Json>, i: nat, selector: Json, caps: seq<Json>, j: nat)
  {
    && Member(v, "nodes") == Some(Arr(nodes)) && i < |nodes| && Member(nodes[i], "model_selector") == Some(selector)
    && Member(selector, "capabilities") == Some(Arr(caps)) && j < |caps|
    && (!caps[j].Str? || Canonicalize(caps[j].text).None?)
  }

  ghost predicate BadTag(v: Json)
  {
    exists nodes, i, selector, caps, j :: BadTagAt(v, nodes, i, selector, caps, j)
  }

  lemma ForeignSourceIs(v: Json)
    ensures ForeignSource(v) <==> HasForbiddenSource(v)
  {
    hide Member;
    if ForeignSource(v) {
      var nodes, i :| Member(v, "nodes") == Some(Arr(nodes)) && 0 <= i < |nodes| && Member(nodes[i], "source").Some?
                      && Member(Member(nodes[i], "source").value, "kind") != Some(Str("documentation"));
      assert Forbidden(NodesOf(v).value[i]);
    }
    if HasForbiddenSource(v) {
      var i :| 0 <= i < |NodesOf(v).value| && Forbidden(NodesOf(v).value[i]);
      assert Member(v, "nodes") == Some(Arr(NodesOf(v).value));
    }
  }

  lemma NodeRejected(node: Json)
    ensures RewriteNode(node).None?
            <==> exists selector, caps: seq<Json>, j: nat ::
                   Member(node, "model_selector") == Some(selector) && Member(selector, "capabilities") == Some(Arr(caps))
                   && j < |caps| && (!caps[j].Str? || Canonicalize(caps[j].text).None?)
  {
    hide Member, TryAll, Canonicalize, CapsOf, WithCaps;
    CapsMeans(node);
    if CapsOf(node).Some? {
      var selector, caps := Member(node, "model_selector").value, CapsOf(node).value;
      TryAllExact(caps, RewriteCap);
      assert Member(selector, "capabilities") == Some(Arr(caps));
      if RewriteNode(node).None? {
        var j :| 0 <= j < |caps| && RewriteCap(caps[j]).None?;
      }
    }
  }

  lemma BadTagIs(v: Json)
    ensures BadTag(v) <==> RewriteAliases(v).None?
  {
    hide Member, TryAll, Canonicalize, SetMember, RewriteNode;
    if NodesOf(v).Some? {
      TryAllExact(NodesOf(v).value, RewriteNode);
    }
    if BadTag(v) {
      var nodes, i, selector, caps, j :| BadTagAt(v, nodes, i, selector, caps, j);
      NodeRejected(nodes[i]);
    }
    if RewriteAliases(v).None? {
      var nodes := NodesOf(v).value;
      var i :| 0 <= i < |nodes| && RewriteNode(nodes[i]).None?;
      NodeRejected(nodes[i]);
      var selector, caps: seq<Json>, j: nat :|
        Member(nodes[i], "model_selector") == Some(selector) && Member(selector, "capabilities") == Some(Arr(caps))
        && j < |caps| && (!caps[j].Str? || Canonicalize(caps[j].text).None?);
      assert BadTagAt(v, nodes, i, selector, caps, j);
    }
  }

  /** The category of every value, in the order of the checks. */
  lemma VerdictCategories(v: Json)
    ensures Verdict(None).category == ParseError
    ensures var r := Verdict(Some(v));
            && (r.category == ParseError <==> !v.Obj?)
            && (r.category == ForbiddenSource <==> v.Obj? && ForeignSource(v))
            && (r.category == UnknownCapability <==> v.Obj? && !ForeignSource(v) && BadTag(v))
            && (r.dag.Some? <==> r.category == Accepted)
            && (r.category == Accepted
                <==> v.Obj? && !ForeignSource(v) && !BadTag(v)
                     && (BadTagIs(v);
                         var dag := DecodeManifest(RewriteAliases(v).value); dag.Some? && ValidGraph(dag.value)))
  {
    hide HasForbiddenSource, RewriteAliases, DecodeManifest, GraphErrorOf, FindFirst, Message, ValidGraph, ForeignSource, BadTag;
    ForeignSourceIs(v);
    BadTagIs(v);
    if RewriteAliases(v).Some? && DecodeManifest(RewriteAliases(v).value).Some? {
      GraphErrorExact(DecodeManifest(RewriteAliases(v).value).value);
    }
  }

  /** An accepted graph draws on documentation only: each source that a node states is of that kind. */
  lemma AcceptedSources(value: Option<Json>, nodes: seq<Json>, i: nat, source: Json)
    requires Verdict(value).dag.Some?
    requires value.Some? && Member(value.value, "nodes") == Some(Arr(nodes)) && i < |nodes|
    requires Member(nodes[i], "source") == Some(source)
    ensures Member(source, "kind") == Some(Str("documentation"))
  {
    hide Member, Verdict;
    VerdictCategories(value.value);
  }

  // ---------------------------------------------------------------- which manifest errors count as graph errors

  ghost predicate Speaks(text: string)
  {
    Contains(text, "next") || Contains(text, "entry")
  }

  /** `p` can only occur inside the quoted part, not in front of it, behind it or across the quotes. */
  lemma OnlyInside(a: string, s: string, b: string, p: string)
    requires |a| > 0 && a[|a| - 1] == '\'' && |b| > 0 && b[0] == '\'' && '\'' !in p && p != ""
    requires (forall i :: !OccursAt(a, p, i)) && (forall i :: !OccursAt(b, p, i))
    ensures Contains(a + s + b, p) <==> Contains(s, p)
  {
    hide OccursAt;
    var t := a + s + b;
    assert t == a + (s + b);
    if Contains(t, p) {
      var i :| OccursAt(t, p, i);
      OccursRange(t, p, i);
      if i < |a| {
        if i + |p| <= |a| {
          OccursInPrefix(a, s + b, p, i);
        } else {
          OccursNotAcross(t, p, i, |a| - 1);
        }
      } else {
        OccursInSuffix(a, s + b, p, i);
        var k := i - |a|;
        if k + |p| <= |s| {
          OccursInPrefix(s, b, p, k);
        } else if k <= |s| {
          OccursNotAcross(s + b, p, k, |s|);
        } else {
          OccursInSuffix(s, b, p, k);
        }
      }
    }
    if Contains(s, p) {
      var i :| OccursAt(s, p, i);
      OccursRange(s, p, i);
      OccursInPrefix(s, b, p, i);
      OccursInSuffix(a, s + b, p, |a| + i);
    }
  }

  lemma OccursRange(s: string, p: string, i: int)
    requires OccursAt(s, p, i)
    ensures 0 <= i && i + |p| <= |s|
  {
  }

  lemma NoNext(s: string)
    requires forall i :: 0 <= i < |s| - 1 ==> !(s[i] == 'x' && s[i + 1] == 't')
    ensures forall i :: !OccursAt(s, "next", i)
  {
    forall i
      ensures !OccursAt(s, "next", i)
    {
      if 0 <= i && i + 4 <= |s| {
        assert s[i..i + 4][2] == s[i + 2] && s[i..i + 4][3] == s[i + 3];
        assert "next"[2] == 'x' && "next"[3] == 't';
      }
    }
  }

  lemma NoEntry(s: string)
    requires forall i :: 0 <= i < |s| - 1 ==> !(s[i] == 'r' && s[i + 1] == 'y')
    ensures forall i :: !OccursAt(s, "entry", i)
  {
    forall i
      ensures !OccursAt(s, "entry", i)
    {
      if 0 <= i && i + 5 <= |s| {
        assert s[i..i + 5][3] == s[i + 3] && s[i..i + 5][4] == s[i + 4];
        assert "entry"[3] == 'r' && "entry"[4] == 'y';
      }
    }
  }

  lemma QuotedSpeaks(a: string, s: string, b: string)
    requires |a| > 0 && a[|a| - 1] == '\'' && |b| > 0 && b[0] == '\''
    requires forall i :: 0 <= i < |a| - 1 ==> !(a[i] == 'x' && a[i + 1] == 't') && !(a[i] == 'r' && a[i + 1] == 'y')
    requires forall i :: 0 <= i < |b| - 1 ==> !(b[i] == 'x' && b[i + 1] == 't') && !(b[i] == 'r' && b[i + 1] == 'y')
    ensures Speaks(a + s + b) <==> Speaks(s)
  {
    NoNext(a);
    NoNext(b);
    NoEntry(a);
    NoEntry(b);
    OnlyInside(a, s, b, "next");
    OnlyInside(a, s, b, "entry");
  }

  lemma CategoryIs(message: string)
    ensures MessageCategory(message) == if Speaks(message) then GraphIntegrity else SchemaValidation
  {
    hide FindFirst, OccursAt;
  }

  /**
   Whether a failed manifest check counts as one of the graph. A missing entry and a dangling `next` always do, an empty
   node list never; for the others it hangs on the id or version that is quoted in the message.
   */
  lemma ErrorCategory(dag: DagManifest, e: GraphError)
    ensures var c := MessageCategory(Message(dag, e));
            && (c == GraphIntegrity || c == SchemaValidation)
            && (e.EntryNotFound? || e.NextNotFound? ==> c == GraphIntegrity)
            && (e.NoNodes? ==> c == SchemaValidation)
            && (e.UnsupportedSchema? ==> (c == GraphIntegrity <==> Speaks(dag.schemaVersion)))
            && (e.DuplicateNode? || e.NoCapabilities? ==> (c == GraphIntegrity <==> Speaks(e.id)))
  {
    hide FindFirst, OccursAt, Speaks, MessageCategory, Message;
    CategoryIs(Message(dag, e));
    match e {
      case UnsupportedSchema => VersionQuoted(dag);
      case NoNodes => NoNodesIsSilent(dag);
      case DuplicateNode(id) => DuplicateQuoted(dag, id);
      case NoCapabilities(id) => NoCapabilitiesQuoted(dag, id);
      case EntryNotFound => LinkNamed(dag, "", "");
      case NextNotFound(from, to) => LinkNamed(dag, from, to);
    }
  }

  lemma VersionQuoted(dag: DagManifest)
    ensures Speaks(Message(dag, UnsupportedSchema)) <==> Speaks(dag.schemaVersion)
  {
    hide Speaks;
    QuotedSpeaks("unsupported template DAG schema_version '", dag.schemaVersion, "' (expected 0.1.0)");
  }

  lemma DuplicateQuoted(dag: DagManifest, id: string)
    ensures Speaks(Message(dag, DuplicateNode(id))) <==> Speaks(id)
  {
    hide Speaks;
    QuotedSpeaks("duplicate node id '", id, "'");
  }

  lemma NoCapabilitiesQuoted(dag: DagManifest, id: string)
    ensures Speaks(Message(dag, NoCapabilities(id))) <==> Speaks(id)
  {
    hide Speaks;
    QuotedSpeaks("node '", id, "' has empty model_selector.capabilities");
  }

  lemma LinkNamed(dag: DagManifest, from: string, to: string)
    ensures Speaks(Message(dag, EntryNotFound)) && Speaks(Message(dag, NextNotFound(from, to)))
  {
    hide Speaks;
    SpeaksAt("", "entry", " '" + dag.entry + "' not found in nodes");
    SpeaksAt("node '" + from + "' ", "next", " '" + to + "' not found in nodes");
    assert Message(dag, EntryNotFound) == "" + "entry" + (" '" + dag.entry + "' not found in nodes");
    assert Message(dag, NextNotFound(from, to)) == ("node '" + from + "' ") + "next" + (" '" + to + "' not found in nodes");
  }

  lemma NoNodesIsSilent(dag: DagManifest)
    ensures !Speaks(Message(dag, NoNodes))
  {
    NoNext("template DAG has no nodes");
    NoEntry("template DAG has no nodes");
  }

  lemma SpeaksAt(a: string, p: string, b: string)
    requires p == "next" || p == "entry"
    ensures Speaks(a + p + b)
  {
    var t := a + p + b;
    assert t[|a|..|a| + |p|] == p;
    assert OccursAt(t, p, |a|);
  }

  /** A graph that decodes but is not valid is filed under its first error. */
  lemma InvalidIsFiled(v: Json)
    requires v.Obj? && !ForeignSource(v) && !BadTag(v)
    ensures RewriteAliases(v).Some?
    ensures var dag := DecodeManifest(RewriteAliases(v).value);
            && (dag.None? ==> Verdict(Some(v)).category == SchemaValidation)
            && (dag.Some? && !ValidGraph(dag.value) ==>
                GraphErrorOf(dag.value).Some?
                && Verdict(Some(v)).category == MessageCategory(Message(dag.value, GraphErrorOf(dag.value).value)))
  {
    hide HasForbiddenSource, RewriteAliases, DecodeManifest, GraphErrorOf, FindFirst, Message, ValidGraph, ForeignSource, BadTag;
    ForeignSourceIs(v);
    BadTagIs(v);
    if DecodeManifest(RewriteAliases(v).value).Some? {
      GraphErrorExact(DecodeManifest(RewriteAliases(v).value).value);
    }
  }
}
