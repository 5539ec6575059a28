/**
 Reading a JSON identity tree as a list of texts: nested de-duplication against one flat de-duplication,
 and the summary of an object against the list of its leaf paths.
 */
module Identity {
  import opened Wrappers
  import opened Text
  import opened JsonTree

  // ---------------------------------------------------------------- de-duplication

  predicate SameIgnoringCase(a: string, b: string)
  {
    Lower(a) == Lower(b)
  }

  predicate Knows(kept: seq<string>, t: string)
  {
    exists k :: 0 <= k < |kept| && SameIgnoringCase(kept[k], t)
  }

  /** One more value: blank or known values add nothing. */
  function Added(kept: seq<string>, value: string): seq<string>
  {
    if Blank(value) || Knows(kept, Trim(value)) then kept else kept + [Trim(value)]
  }

  function DedupeFrom(kept: seq<string>, values: seq<string>): seq<string>
  {
    if values == [] then kept
    else Added(DedupeFrom(kept, values[..|values| - 1]), values[|values| - 1])
  }

  function Dedupe(values: seq<string>): seq<string>
  {
    DedupeFrom([], values)
  }

  method DedupeNonEmpty(values: seq<string>) returns (deduped: seq<string>)
    ensures deduped == Dedupe(values)
  {
    hide Trim, Knows;
    deduped := [];
    for i := 0 to |values|
      invariant deduped == Dedupe(values[..i])
    {
      assert values[..i + 1][..i] == values[..i];
      var trimmed := Trim(values[i]);
      if trimmed == "" {
        continue;
      }
      if !Knows(deduped, trimmed) {
        deduped := deduped + [trimmed];
      }
    }
    assert values[..|values|] == values;
  }

  /** Value `i` is not blank and no earlier value says the same. */
  ghost predicate FirstOfItsKind(values: seq<string>, i: nat)
  {
    i < |values| && !Blank(values[i])
    && forall j :: 0 <= j < i ==> Blank(values[j]) || !SameIgnoringCase(Trim(values[j]), Trim(values[i]))
  }

  ghost predicate Mentioned(values: seq<string>, t: string)
  {
    exists j :: 0 <= j < |values| && !Blank(values[j]) && SameIgnoringCase(Trim(values[j]), t)
  }

  lemma MentionedStep(values: seq<string>, x: string, t: string)
    ensures Mentioned(values + [x], t) <==> Mentioned(values, t) || (!Blank(x) && SameIgnoringCase(Trim(x), t))
  {
    hide Trim, Blank, SameIgnoringCase;
    var all := values + [x];
    if Mentioned(values, t) {
      var j :| 0 <= j < |values| && !Blank(values[j]) && SameIgnoringCase(Trim(values[j]), t);
      assert all[j] == values[j];
    }
    if !Blank(x) && SameIgnoringCase(Trim(x), t) {
      assert all[|values|] == x;
    }
  }

  lemma KnowsStep(kept: seq<string>, x: string, t: string)
    ensures Knows(kept + [x], t) <==> Knows(kept, t) || SameIgnoringCase(x, t)
  {
    hide SameIgnoringCase;
    if Knows(kept, t) {
      var k :| 0 <= k < |kept| && SameIgnoringCase(kept[k], t);
      assert (kept + [x])[k] == kept[k];
    }
    if SameIgnoringCase(x, t) {
      assert (kept + [x])[|kept|] == x;
    }
  }

  lemma Sharing(kept: seq<string>, x: string, t: string)
    requires SameIgnoringCase(x, t)
    ensures Knows(kept, x) == Knows(kept, t)
  {
  }

  /** What is known afterwards: what was known before, and what the values mention. */
  lemma {:induction false} KnownAfter(kept: seq<string>, values: seq<string>, t: string)
    ensures Knows(DedupeFrom(kept, values), t) <==> Knows(kept, t) || Mentioned(values, t)
    decreases |values|, 1
  {
    if values != [] {
      var init, x := values[..|values| - 1], values[|values| - 1];
      assert values == init + [x];
      KnownStep(kept, init, x, t);
    }
  }

  lemma {:induction false} KnownStep(kept: seq<string>, init: seq<string>, x: string, t: string)
    ensures Knows(DedupeFrom(kept, init + [x]), t) <==> Knows(kept, t) || Mentioned(init + [x], t)
    decreases |init| + 1, 0
  {
    hide *;
    KnownAfter(kept, init, t);
    MentionedStep(init, x, t);
    var before := DedupeFrom(kept, init);
    DedupeStep(kept, init, x);
    AddedCases(before, x);
    KnowsStep(before, Trim(x), t);
    if Knows(before, Trim(x)) && SameIgnoringCase(Trim(x), t) {
      Sharing(before, Trim(x), t);
    }
  }

  lemma DedupeStep(kept: seq<string>, init: seq<string>, x: string)
    ensures DedupeFrom(kept, init + [x]) == Added(DedupeFrom(kept, init), x)
  {
    hide Added;
    assert (init + [x])[..|init|] == init;
  }

  lemma AddedCases(kept: seq<string>, x: string)
    ensures Added(kept, x) == if Blank(x) || Knows(kept, Trim(x)) then kept else kept + [Trim(x)]
  {
  }

  /** The indices of the first mentions, in order. */
  ghost function FirstMentions(values: seq<string>): seq<nat>
  {
    if values == [] then []
    else
      var n := |values| - 1;
      FirstMentions(values[..n]) + if FirstOfItsKind(values, n) then [n] else []
  }

  function TrimmedAt(values: seq<string>, at: seq<nat>): seq<string>
    requires forall k :: 0 <= k < |at| ==> at[k] < |values|
  {
    seq(|at|, k requires 0 <= k < |at| => Trim(values[at[k]]))
  }

  lemma {:induction false} FirstMentionsSorted(values: seq<string>)
    ensures forall k :: 0 <= k < |FirstMentions(values)| ==> FirstOfItsKind(values, FirstMentions(values)[k])
    ensures forall k, l :: 0 <= k < l < |FirstMentions(values)| ==> FirstMentions(values)[k] < FirstMentions(values)[l]
    ensures forall i :: FirstOfItsKind(values, i) ==> i in FirstMentions(values)
    decreases |values|
  {
    hide Blank, Trim, SameIgnoringCase;
    if values != [] {
      var n := |values| - 1;
      var init := values[..n];
      FirstMentionsSorted(init);
      var at := FirstMentions(init);
      forall i: nat
        ensures FirstOfItsKind(init, i) ==> i < n
        ensures i < n ==> (FirstOfItsKind(init, i) <==> FirstOfItsKind(values, i))
        ensures FirstOfItsKind(values, i) ==> i <= n
      {
      }
      forall k | 0 <= k < |at|
        ensures FirstOfItsKind(values, at[k]) && at[k] < n
      {
        assert FirstOfItsKind(init, at[k]);
      }
      assert FirstMentions(values) == at + if FirstOfItsKind(values, n) then [n] else [];
    }
  }

  lemma FirstIffUnmentioned(init: seq<string>, x: string)
    ensures FirstOfItsKind(init + [x], |init|) <==> !Blank(x) && !Mentioned(init, Trim(x))
  {
    hide Blank, Trim, SameIgnoringCase;
    var all := init + [x];
    assert all[|init|] == x && forall j :: 0 <= j < |init| ==> all[j] == init[j];
  }

  /** The result lists exactly the first mention of each text, trimmed, in order. */
  lemma {:induction false} DedupeIsFirstMentions(values: seq<string>)
    ensures forall k :: 0 <= k < |FirstMentions(values)| ==> FirstMentions(values)[k] < |values|
    ensures Dedupe(values) == TrimmedAt(values, FirstMentions(values))
    decreases |values|
  {
    hide Blank, Trim, Knows, Mentioned, FirstOfItsKind, SameIgnoringCase;
    if values != [] {
      var n := |values| - 1;
      var init, x := values[..n], values[n];
      assert values == init + [x];
      DedupeIsFirstMentions(init);
      FirstIffUnmentioned(init, x);
      KnownAfter([], init, Trim(x));
      NothingKnown(Trim(x));
      BlankMeans(x);
    }
  }

  /** The kept texts are trimmed, not blank and pairwise different even ignoring ASCII case, and no text is lost. */
  lemma DedupeClean(values: seq<string>)
    ensures var r := Dedupe(values);
            && (forall k :: 0 <= k < |r| ==> Trimmed(r[k]) && r[k] != "")
            && (forall k, l :: 0 <= k < l < |r| ==> !SameIgnoringCase(r[k], r[l]))
            && (forall i :: 0 <= i < |values| && !Blank(values[i]) ==> Knows(r, Trim(values[i])))
  {
    hide Trim, Knows, Dedupe, FirstMentions, SameIgnoringCase, Mentioned;
    var r, at := Dedupe(values), FirstMentions(values);
    DedupeIsFirstMentions(values);
    FirstMentionsSorted(values);
    forall k | 0 <= k < |r|
      ensures Trimmed(r[k]) && r[k] != ""
    {
      var a, b := TrimParts(values[at[k]]);
    }
    forall k, l | 0 <= k < l < |r|
      ensures !SameIgnoringCase(r[k], r[l])
    {
      assert FirstOfItsKind(values, at[k]) && FirstOfItsKind(values, at[l]) && at[k] < at[l];
    }
    forall i | 0 <= i < |values| && !Blank(values[i])
      ensures Knows(r, Trim(values[i]))
    {
      MentionsItself(values, i);
      KnownAfter([], values, Trim(values[i]));
      DedupeIs(values);
    }
  }

  lemma MentionsItself(values: seq<string>, i: nat)
    requires i < |values| && !Blank(values[i])
    ensures Mentioned(values, Trim(values[i]))
  {
  }

  lemma NothingKnown(t: string)
    ensures !Knows([], t)
  {
  }

  lemma BlankMeans(x: string)
    ensures Blank(x) <==> Trim(x) == ""
  {
  }

  /** De-duplicating part of the input first changes nothing. */
  lemma {:induction false} DedupeAbsorbs(kept: seq<string>, values: seq<string>)
    ensures DedupeFrom(kept, Dedupe(values)) == DedupeFrom(kept, values)
    decreases |values|, 1
  {
    if values != [] {
      var init, x := values[..|values| - 1], values[|values| - 1];
      assert values == init + [x];
      AbsorbStep(kept, init, x);
    }
  }

  lemma {:induction false} AbsorbStep(kept: seq<string>, init: seq<string>, x: string)
    ensures DedupeFrom(kept, Dedupe(init + [x])) == DedupeFrom(kept, init + [x])
    decreases |init| + 1, 0
  {
    hide *;
    DedupeAbsorbs(kept, init);
    DedupeIs(init);
    DedupeIs(init + [x]);
    DedupeStep([], init, x);
    DedupeStep(kept, init, x);
    AddedCases(Dedupe(init), x);
    AddedCases(DedupeFrom(kept, init), x);
    if !Blank(x) {
      if Knows(Dedupe(init), Trim(x)) {
        KnownAfter([], init, Trim(x));
        NothingKnown(Trim(x));
        KnownAfter(kept, init, Trim(x));
      } else {
        DedupeStep(kept, Dedupe(init), Trim(x));
        AddedTrimmed(DedupeFrom(kept, init), x);
      }
    }
  }

  lemma DedupeIs(values: seq<string>)
    ensures Dedupe(values) == DedupeFrom([], values)
  {
  }

  lemma AddedTrimmed(kept: seq<string>, x: string)
    ensures Added(kept, Trim(x)) == Added(kept, x)
  {
    hide Trim, Knows;
    TrimIdempotent(x);
  }

  lemma {:induction false} DedupeInTwo(kept: seq<string>, a: seq<string>, b: seq<string>)
    ensures DedupeFrom(kept, a + b) == DedupeFrom(DedupeFrom(kept, a), b)
    decreases |b|
  {
    if b == [] {
      assert a + b == a;
    } else {
      hide Added;
      var n := |b| - 1;
      assert (a + b)[..|a + b| - 1] == a + b[..n] && (a + b)[|a + b| - 1] == b[n];
      DedupeInTwo(kept, a, b[..n]);
    }
  }

  // ---------------------------------------------------------------- leaves and summaries

  function ScalarToString(value: Json): Option<string>
  {
    match value
    case Str(text) => if Blank(text) then None else Some(Trim(text))
    case Number(printed) => Some(printed)
    case Bool(flag) => Some(if flag then "true" else "false")
    case _ => None
  }

  function Join(parts: seq<string>, sep: string): string
  {
    if parts == [] then "" else if |parts| == 1 then parts[0] else parts[0] + sep + Join(parts[1..], sep)
  }

  function Spaced(key: string): (r: string)
    ensures |r| == |key|
  {
    seq(|key|, i requires 0 <= i < |key| => if key[i] == '_' then ' ' else key[i])
  }

  function Extended(prefix: string, caption: string): string
  {
    if prefix == "" then caption else prefix + " " + caption
  }

  function OneOrNone(text: Option<string>): seq<string>
  {
    if text.Some? then [text.value] else []
  }

  function NamedScalar(fields: seq<Field>, key: string): Option<string>
  {
    var v := Get(fields, key);
    if v.Some? then ScalarToString(v.value) else None
  }

  /** The texts of a tree in order: arrays are flattened, an object stands for its name, title or summary. */
  function Leaves(value: Json): seq<string>
    decreases value
  {
    match value
    case Arr(entries) => LeavesOfAll(entries)
    case Obj(fields) =>
      if NamedScalar(fields, "name").Some? then [NamedScalar(fields, "name").value]
      else if NamedScalar(fields, "title").Some? then [NamedScalar(fields, "title").value]
      else OneOrNone(Summary(fields))
    case _ => OneOrNone(ScalarToString(value))
  }

  function LeavesOfAll(entries: seq<Json>): seq<string>
    decreases entries
  {
    if entries == [] then [] else Leaves(entries[0]) + LeavesOfAll(entries[1..])
  }

  function Summary(fields: seq<Field>): Option<string>
    decreases fields, 1
  {
    var parts := Parts("", fields);
    if parts == [] then None else Some(Join(parts, "; "))
  }

  function Parts(prefix: string, fields: seq<Field>): seq<string>
    decreases fields, 0
  {
    if fields == [] then []
    else PartsOf(prefix, fields[0]) + Parts(prefix, fields[1..])
  }

  function PartsOf(prefix: string, field: Field): seq<string>
    decreases field
  {
    if "@" <= field.key then []
    else
      var caption := Extended(prefix, Spaced(field.key));
      match field.value
      case Obj(inner) => Parts(caption, inner)
      case _ => OneOrNone(Part(caption, field.value))
  }

  /** The entry for a value that is not an object, unless it says nothing. */
  function Part(caption: string, value: Json): Option<string>
    decreases value
  {
    match value
    case Arr(entries) =>
      var values := Dedupe(LeavesOfAll(entries));
      if values == [] then None else Some(caption + ": " + Join(values, ", "))
    case _ =>
      var text := ScalarToString(value);
      if text.Some? then Some(caption + ": " + text.value) else None
  }

  // ---------------------------------------------------------------- the mutually recursive reader

  /** De-duplicating at every nesting level gives what one de-duplication of the flattened leaves gives. */
  method ListFromValue(value: Json) returns (r: seq<string>)
    ensures r == Dedupe(Leaves(value))
    decreases value
  {
    hide Dedupe, DedupeFrom, ScalarToString, Summary, NamedScalar;
    var values: seq<string> := [];
    match value {
      case Arr(entries) =>
        for i := 0 to |entries|
          invariant Dedupe(values) == Dedupe(LeavesOfAll(entries[..i]))
        {
          var more := ListFromValue(entries[i]);
          ExtendList(values, more, entries, i);
          values := values + more;
        }
        assert entries[..|entries|] == entries;
      case Obj(fields) =>
        var name := NamedScalar(fields, "name");
        if name.Some? {
          values := [name.value];
        } else {
          var title := NamedScalar(fields, "title");
          if title.Some? {
            values := [title.value];
          } else {
            var summary := SummarizeObject(fields);
            if summary.Some? {
              values := [summary.value];
            }
          }
        }
      case _ =>
        var text := ScalarToString(value);
        if text.Some? {
          values := [text.value];
        }
    }
    r := DedupeNonEmpty(values);
  }

  lemma {:induction false} LeavesAppend(a: seq<Json>, v: Json)
    ensures LeavesOfAll(a + [v]) == LeavesOfAll(a) + Leaves(v)
  {
    hide Leaves;
    if a == [] {
      assert (a + [v])[1..] == [];
      assert a + [v] == [v];
    } else {
      assert (a + [v])[0] == a[0] && (a + [v])[1..] == a[1..] + [v];
      LeavesAppend(a[1..], v);
    }
  }

  lemma ExtendList(values: seq<string>, more: seq<string>, entries: seq<Json>, i: nat)
    requires i < |entries|
    requires Dedupe(values) == Dedupe(LeavesOfAll(entries[..i])) && more == Dedupe(Leaves(entries[i]))
    ensures Dedupe(values + more) == Dedupe(LeavesOfAll(entries[..i + 1]))
  {
    hide *;
    var before, leaves := LeavesOfAll(entries[..i]), Leaves(entries[i]);
    assert entries[..i + 1] == entries[..i] + [entries[i]];
    LeavesAppend(entries[..i], entries[i]);
    DedupeIs(values + more);
    DedupeIs(before + leaves);
    DedupeIs(values);
    DedupeIs(before);
    DedupeInTwo([], values, more);
    DedupeInTwo([], before, leaves);
    DedupeAbsorbs(Dedupe(before), leaves);
  }

  method SummarizeObject(fields: seq<Field>) returns (r: Option<string>)
    ensures r == Summary(fields)
    decreases fields, 1
  {
    hide Parts;
    var parts := SummarizeObjectIntoParts("", fields, []);
    assert [] + Parts("", fields) == Parts("", fields);
    r := if parts == [] then None else Some(Join(parts, "; "));
  }

  method SummarizeObjectIntoParts(prefix: string, fields: seq<Field>, before: seq<string>) returns (parts: seq<string>)
    ensures parts == before + Parts(prefix, fields)
    decreases fields, 0
  {
    hide Parts, Part, Dedupe, ScalarToString;
    parts := before;
    NoParts(prefix);
    for i := 0 to |fields|
      invariant parts == before + Parts(prefix, fields[..i])
    {
      var field := fields[i];
      PartsAppend(prefix, fields[..i], field);
      assert fields[..i + 1] == fields[..i] + [field];
      if "@" <= field.key {
        continue;
      }
      var caption := Extended(prefix, Spaced(field.key));
      if field.value.Obj? {
        parts := SummarizeObjectIntoParts(caption, field.value.fields, parts);
      } else if field.value.Arr? {
        var values := ListFromValue(field.value);
        PartOfArray(caption, field.value.entries);
        if values != [] {
          parts := parts + [caption + ": " + Join(values, ", ")];
        }
      } else {
        var text := ScalarToString(field.value);
        PartOfScalar(caption, field.value);
        if text.Some? {
          parts := parts + [caption + ": " + text.value];
        }
      }
    }
    assert fields[..|fields|] == fields;
  }

  lemma PartOfArray(caption: string, entries: seq<Json>)
    ensures var values := Dedupe(Leaves(Arr(entries)));
            Part(caption, Arr(entries)) == if values == [] then None else Some(caption + ": " + Join(values, ", "))
  {
    hide Dedupe, LeavesOfAll, Join;
  }

  lemma PartOfScalar(caption: string, value: Json)
    requires !value.Arr?
    ensures var text := ScalarToString(value);
            Part(caption, value) == if text.Some? then Some(caption + ": " + text.value) else None
  {
    hide ScalarToString;
  }

  lemma NoParts(prefix: string)
    ensures Parts(prefix, []) == []
  {
  }

  lemma {:induction false} PartsAppend(prefix: string, a: seq<Field>, f: Field)
    ensures Parts(prefix, a + [f]) == Parts(prefix, a) + PartsOf(prefix, f)
  {
    hide PartsOf;
    if a == [] {
      assert (a + [f])[1..] == [];
      assert a + [f] == [f];
    } else {
      assert (a + [f])[0] == a[0] && (a + [f])[1..] == a[1..] + [f];
      PartsAppend(prefix, a[1..], f);
    }
  }

  // ---------------------------------------------------------------- the summary as a list of leaf paths

  /** A value that is not an object, with the keys leading to it. */
  datatype Leaf = Leaf(path: seq<string>, value: Json)

  /** The leaves below no key that starts with `@`, in order. */
  function LeafPaths(path: seq<string>, fields: seq<Field>): seq<Leaf>
    decreases fields
  {
    if fields == [] then []
    else LeafPathsOf(path, fields[0]) + LeafPaths(path, fields[1..])
  }

  function LeafPathsOf(path: seq<string>, field: Field): seq<Leaf>
    decreases field
  {
    if "@" <= field.key then []
    else
      match field.value
      case Obj(inner) => LeafPaths(path + [field.key], inner)
      case _ => [Leaf(path + [field.key], field.value)]
  }

  /** The keys joined by spaces, underscores shown as spaces, empty leading keys dropped. */
  function Caption(path: seq<string>): string
  {
    if path == [] then ""
    else if path[0] == "" then Caption(path[1..])
    else Join(AllSpaced(path), " ")
  }

  function AllSpaced(path: seq<string>): (r: seq<string>)
    ensures |r| == |path|
  {
    seq(|path|, i requires 0 <= i < |path| => Spaced(path[i]))
  }

  lemma {:induction false} JoinSnoc(parts: seq<string>, last: string, sep: string)
    requires |parts| > 0
    ensures Join(parts + [last], sep) == Join(parts, sep) + sep + last
  {
    var all := parts + [last];
    assert all[0] == parts[0] && all[1..] == parts[1..] + [last];
    if |parts| > 1 {
      JoinSnoc(parts[1..], last, sep);
      assert parts[0] + sep + (Join(parts[1..], sep) + sep + last) == (parts[0] + sep + Join(parts[1..], sep)) + sep + last;
    } else {
      assert Join([last], sep) == last;
    }
  }

  lemma JoinHead(parts: seq<string>, sep: string)
    requires |parts| > 0 && parts[0] != ""
    ensures Join(parts, sep) != ""
  {
  }

  lemma {:induction false} CaptionExtended(path: seq<string>, key: string)
    ensures Caption(path + [key]) == Extended(Caption(path), Spaced(key))
  {
    hide Join;
    var all := path + [key];
    if path == [] {
      assert all == [key] && all[1..] == [];
      SingleCaption(key);
    } else if path[0] == "" {
      assert all[0] == "" && all[1..] == path[1..] + [key];
      CaptionExtended(path[1..], key);
    } else {
      assert all[0] == path[0];
      assert AllSpaced(all) == AllSpaced(path) + [Spaced(key)];
      JoinSnoc(AllSpaced(path), Spaced(key), " ");
      JoinHead(AllSpaced(path), " ");
    }
  }

  lemma SingleCaption(key: string)
    ensures Caption([key]) == Spaced(key)
  {
    assert [key][1..] == [];
    if key == "" {
      assert Spaced(key) == "";
    } else {
      assert AllSpaced([key]) == [Spaced(key)];
    }
  }

  function Rendered(leaves: seq<Leaf>): seq<string>
  {
    if leaves == [] then []
    else OneOrNone(Part(Caption(leaves[0].path), leaves[0].value)) + Rendered(leaves[1..])
  }

  lemma {:induction false} RenderedAppend(a: seq<Leaf>, b: seq<Leaf>)
    ensures Rendered(a + b) == Rendered(a) + Rendered(b)
  {
    hide Part, Caption;
    if a == [] {
      assert a + b == b;
    } else {
      assert (a + b)[0] == a[0] && (a + b)[1..] == a[1..] + b;
      RenderedAppend(a[1..], b);
    }
  }

  /** The parts of a summary are the leaves in order, each under the caption of its whole path. */
  lemma {:induction false} PartsAreLeafPaths(path: seq<string>, fields: seq<Field>)
    ensures Parts(Caption(path), fields) == Rendered(LeafPaths(path, fields))
    decreases fields
  {
    if fields != [] {
      hide PartsOf, LeafPathsOf, Caption, Rendered;
      PartsOfLeafPaths(path, fields[0]);
      PartsAreLeafPaths(path, fields[1..]);
      RenderedAppend(LeafPathsOf(path, fields[0]), LeafPaths(path, fields[1..]));
    } else {
      assert Rendered([]) == [];
    }
  }

  lemma {:induction false} PartsOfLeafPaths(path: seq<string>, field: Field)
    ensures PartsOf(Caption(path), field) == Rendered(LeafPathsOf(path, field))
    decreases field
  {
    hide Caption, Part, Extended;
    CaptionExtended(path, field.key);
    if "@" <= field.key {
    } else if field.value.Obj? {
      PartsAreLeafPaths(path + [field.key], field.value.fields);
    } else {
      var leaf := Leaf(path + [field.key], field.value);
      assert [leaf][1..] == [];
    }
  }
}
