/** How a JSON identity tree is read and shown: which texts it holds, when two count as the same, and how a part is written. */
module IdentityMeaning {
  import opened Wrappers
  import opened Text
  import opened JsonTree
  import opened Identity

  /** The same character, or a Latin letter in its other case. */
  predicate SameLetter(a: char, b: char)
  {
    || a == b
    || ('A' <= a <= 'Z' && b as int == a as int + 32)
    || ('A' <= b <= 'Z' && a as int == b as int + 32)
  }

  lemma LettersFold(a: char, b: char)
    ensures LowerChar(a) == LowerChar(b) <==> SameLetter(a, b)
  {
  }

  /** Two texts count as the same when they differ in the case of Latin letters only. */
  lemma SameTextExactly(a: string, b: string)
    ensures SameIgnoringCase(a, b) <==> |a| == |b| && forall i :: 0 <= i < |a| ==> SameLetter(a[i], b[i])
  {
    hide LowerChar;
    if |a| == |b| {
      forall i | 0 <= i < |a|
        ensures Lower(a)[i] == Lower(b)[i] <==> SameLetter(a[i], b[i])
      {
        LettersFold(a[i], b[i]);
      }
    }
    assert |Lower(a)| == |a| && |Lower(b)| == |b|;
  }

  /** A value that reads as a text: a string that is not blank, a number as printed, or a truth value. */
  predicate Says(v: Json, text: string)
  {
    || (v.Str? && Trim(v.text) != "" && text == Trim(v.text))
    || (v.Number? && text == v.printed)
    || (v.Bool? && text == if v.flag then "true" else "false")
  }

  lemma ScalarReads(v: Json)
    ensures forall text :: ScalarToString(v) == Some(text) <==> Says(v, text)
  {
    hide Trim;
  }

  predicate FieldSays(fields: seq<Field>, key: string, text: string)
  {
    Get(fields, key).Some? && Says(Get(fields, key).value, text)
  }

  lemma FieldReads(fields: seq<Field>, key: string)
    ensures forall text :: NamedScalar(fields, key) == Some(text) <==> FieldSays(fields, key, text)
  {
    hide Says, ScalarToString, Get;
    if Get(fields, key).Some? {
      ScalarReads(Get(fields, key).value);
    }
  }

  /** An object reads as its name, else its title, else its parts. */
  lemma ObjectReads(fields: seq<Field>, text: string)
    ensures FieldSays(fields, "name", text) ==> Leaves(Obj(fields)) == [text]
    ensures (forall t :: !FieldSays(fields, "name", t)) && FieldSays(fields, "title", text) ==> Leaves(Obj(fields)) == [text]
    ensures (forall t :: !FieldSays(fields, "name", t) && !FieldSays(fields, "title", t)) ==>
              Leaves(Obj(fields)) == if Parts("", fields) == [] then [] else [Join(Parts("", fields), "; ")]
  {
    hide NamedScalar, FieldSays, Parts, Join;
    FieldReads(fields, "name");
    FieldReads(fields, "title");
    NameRead(fields, "name");
    NameRead(fields, "title");
  }

  lemma NameRead(fields: seq<Field>, key: string)
    ensures NamedScalar(fields, key).Some? ==> FieldSays(fields, key, NamedScalar(fields, key).value)
  {
    hide NamedScalar, FieldSays;
    FieldReads(fields, key);
  }

  /** A list reads as what its entries read as, one behind the other. */
  lemma ListReads(entries: seq<Json>, last: Json)
    ensures Leaves(Arr([])) == [] && Leaves(Arr(entries + [last])) == Leaves(Arr(entries)) + Leaves(last)
  {
    hide Leaves, LeavesOfAll;
    ListIs([]);
    ListIs(entries);
    ListIs(entries + [last]);
    LeavesAppend(entries, last);
    NoLeaves();
  }

  lemma ListIs(entries: seq<Json>)
    ensures Leaves(Arr(entries)) == LeavesOfAll(entries)
  {
    hide LeavesOfAll;
  }

  lemma NoLeaves()
    ensures LeavesOfAll([]) == []
  {
  }

  /** Any other value reads as its text, or as nothing. */
  lemma ScalarLeaf(v: Json, text: string)
    requires !v.Arr? && !v.Obj?
    ensures Says(v, text) ==> Leaves(v) == [text]
    ensures (forall t :: !Says(v, t)) ==> Leaves(v) == []
  {
    hide Says, ScalarToString;
    ScalarReads(v);
  }

  /** Joining puts the separator between neighbours. */
  lemma JoinReads(parts: seq<string>, last: string, sep: string)
    ensures Join([], sep) == "" && Join([last], sep) == last
    ensures parts != [] ==> Join(parts + [last], sep) == Join(parts, sep) + sep + last
  {
    if parts != [] {
      JoinSnoc(parts, last, sep);
    }
  }

  /** The caption under which a field's parts stand: the key with spaces for underscores, behind the one above it. */
  predicate IsCaption(prefix: string, key: string, caption: string)
  {
    if prefix == "" then |caption| == |key| && WithSpaces(key, caption)
    else |caption| == |prefix| + 1 + |key| && prefix + " " <= caption && WithSpaces(key, caption[|prefix| + 1..])
  }

  predicate WithSpaces(key: string, shown: string)
  {
    |shown| == |key| && forall i :: 0 <= i < |key| ==> shown[i] == if key[i] == '_' then ' ' else key[i]
  }

  lemma CaptionReads(prefix: string, key: string)
    ensures IsCaption(prefix, key, Extended(prefix, Spaced(key)))
  {
    var shown := Spaced(key);
    assert WithSpaces(key, shown);
    if prefix != "" {
      assert (prefix + " " + shown)[|prefix| + 1..] == shown;
    }
  }

  /** What one more field adds: nothing under `@`, the fields of an object under its caption, else one line if it says something. */
  lemma FieldParts(prefix: string, fields: seq<Field>, field: Field)
    ensures Parts(prefix, []) == []
    ensures var before, all := Parts(prefix, fields), Parts(prefix, fields + [field]);
            var caption := Extended(prefix, Spaced(field.key));
            && ("@" <= field.key ==> all == before)
            && (!("@" <= field.key) ==>
                && (field.value.Obj? ==> all == before + Parts(caption, field.value.fields))
                && (field.value.Arr? ==>
                    var values := Dedupe(Leaves(field.value));
                    all == before + if values == [] then [] else [caption + ": " + Join(values, ", ")])
                && (!field.value.Obj? && !field.value.Arr? ==>
                    && (forall text :: Says(field.value, text) ==> all == before + [caption + ": " + text])
                    && ((forall text :: !Says(field.value, text)) ==> all == before)))
  {
    hide Parts, Dedupe, Leaves, LeavesOfAll, Join, Says, ScalarToString, Extended, Spaced;
    NoParts(prefix);
    PartsAppend(prefix, fields, field);
    ScalarReads(field.value);
    if field.value.Arr? {
      ListIs(field.value.entries);
    }
  }
}
