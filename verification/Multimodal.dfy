/**
 Image markers in chat text: the parser that pulls `[IMAGE:ref]` references out of a message, and the
 printer that writes a text and its references back into one message.
 */
module Multimodal {
  import opened Wrappers
  import opened Text

  /** What opens an image marker; `]` closes it. */
  function Marker(): string
  {
    "[IMAGE:"
  }

  /** What separates the text from its markers. */
  function Separator(): string
  {
    "\n\n"
  }

  lemma MarkerFacts()
    ensures |Marker()| == 7 && Marker()[0] == '[' && '\n' !in Marker() && ']' !in Marker()
    ensures |Separator()| == 2 && Separator()[0] == '\n' && Separator()[1] == '\n'
  {
  }

  /** The kept text (not yet trimmed) and the references, in order. */
  function Scan(s: string): (r: (string, seq<string>))
    decreases |s|
  {
    var open := FindFirst(s, Marker());
    if open.None? then (s, [])
    else
      var after := s[open.value + |Marker()|..];
      var close := FindFirst(after, "]");
      if close.None? then (s, [])
      else
        var candidate := Trim(after[..close.value]);
        var rest := Scan(after[close.value + 1..]);
        if candidate == "" then (s[..open.value + |Marker()| + close.value + 1] + rest.0, rest.1)
        else (s[..open.value] + rest.0, [candidate] + rest.1)
  }

  function Parse(s: string): (string, seq<string>)
  {
    (Trim(Scan(s).0), Scan(s).1)
  }

  lemma ScanEnds(s: string)
    requires var open := FindFirst(s, Marker());
             open.None? || FindFirst(s[open.value + |Marker()|..], "]").None?
    ensures Scan(s) == (s, [])
  {
    hide FindFirst, Trim, Marker;
  }

  /** One marker, with positions counted in the whole message. */
  lemma ScanStep(content: string, cursor: nat, start: nat, end: nat)
    requires cursor <= start && start + |Marker()| <= end < |content|
    requires FindFirst(content[cursor..], Marker()) == Some(start - cursor)
    requires FindFirst(content[start + |Marker()|..], "]") == Some(end - start - |Marker()|)
    ensures var candidate, rest := Trim(content[start + |Marker()|..end]), Scan(content[end + 1..]);
            Scan(content[cursor..]) == if candidate == "" then (content[cursor..start] + content[start..end + 1] + rest.0, rest.1)
                                       else (content[cursor..start] + rest.0, [candidate] + rest.1)
  {
    hide FindFirst, Trim, Marker;
    var s := content[cursor..];
    var i := start - cursor;
    var after := s[i + |Marker()|..];
    assert after == content[start + |Marker()|..];
    assert after[..end - start - |Marker()|] == content[start + |Marker()|..end];
    assert after[end - start - |Marker()| + 1..] == content[end + 1..];
    assert s[..i + |Marker()| + (end - start - |Marker()|) + 1] == content[cursor..start] + content[start..end + 1];
    assert s[..i] == content[cursor..start];
  }

  method ParseImageMarkers(content: string) returns (cleaned: string, refs: seq<string>)
    ensures (cleaned, refs) == Parse(content)
  {
    hide FindFirst, Trim, Marker, Scan;
    refs := [];
    cleaned := "";
    var cursor := 0;
    var open := FindFirst(content[cursor..], Marker());
    assert content[0..] == content;
    while open.Some?
      invariant cursor <= |content|
      invariant open == FindFirst(content[cursor..], Marker())
      invariant Scan(content).0 == cleaned + Scan(content[cursor..]).0
      invariant Scan(content).1 == refs + Scan(content[cursor..]).1
      decreases |content| - cursor
    {
      var start := cursor + open.value;
      var markerStart := start + |Marker()|;
      assert content[markerStart..] == content[cursor..][open.value + |Marker()|..];
      var close := FindFirst(content[markerStart..], "]");
      if close.None? {
        ScanEnds(content[cursor..]);
        assert cleaned + content[cursor..start] + content[start..] == cleaned + content[cursor..];
        assert refs + [] == refs;
        cleaned := cleaned + content[cursor..start] + content[start..];
        cleaned := Trim(cleaned);
        return;
      }
      var end := markerStart + close.value;
      var candidate := Trim(content[markerStart..end]);
      ScanStep(content, cursor, start, end);
      if candidate == "" {
        cleaned := cleaned + content[cursor..start] + content[start..end + 1];
      } else {
        cleaned := cleaned + content[cursor..start];
        refs := refs + [candidate];
      }
      cursor := end + 1;
      open := FindFirst(content[cursor..], Marker());
    }
    ScanEnds(content[cursor..]);
    assert refs + [] == refs;
    assert cursor == |content| ==> cleaned + content[cursor..] == cleaned;
    if cursor < |content| {
      cleaned := cleaned + content[cursor..];
    }
    cleaned := Trim(cleaned);
  }

  function Printed(ref: string): string
  {
    Marker() + ref + "]"
  }

  /** The markers, one per line. */
  function Markers(refs: seq<string>): string
  {
    if refs == [] then ""
    else if |refs| == 1 then Printed(refs[0])
    else Printed(refs[0]) + "\n" + Markers(refs[1..])
  }

  function Compose(text: string, refs: seq<string>): string
  {
    (if Trim(text) == "" then "" else Trim(text) + Separator()) + Markers(refs)
  }

  method ComposeMultimodalMessage(text: string, refs: seq<string>) returns (content: string)
    ensures content == Compose(text, refs)
  {
    hide Trim, Marker, Separator, Markers, Printed;
    content := "";
    var trimmed := Trim(text);
    if trimmed != "" {
      content := content + trimmed;
      content := content + Separator();
    }
    ghost var head := content;
    NoMarkers();
    for index := 0 to |refs|
      invariant content == head + Markers(refs[..index])
    {
      MarkersSnoc(refs[..index], refs[index]);
      assert refs[..index + 1] == refs[..index] + [refs[index]];
      if index > 0 {
        content := content + "\n";
      }
      ghost var lead := content;
      content := content + Marker();
      content := content + refs[index];
      content := content + "]";
      OneMarker(lead, refs[index]);
      Regrouped(head, Markers(refs[..index]), "\n", Printed(refs[index]));
    }
    assert refs[..|refs|] == refs;
  }

  lemma OneMarker(lead: string, ref: string)
    ensures lead + Marker() + ref + "]" == lead + Printed(ref)
  {
    hide Marker;
  }

  lemma Regrouped(a: string, b: string, c: string, d: string)
    ensures a + b + c + d == a + (b + c + d)
  {
  }

  lemma NoMarkers()
    ensures Markers([]) == ""
  {
  }

  lemma {:induction false} MarkersSnoc(refs: seq<string>, ref: string)
    ensures Markers(refs + [ref]) == if refs == [] then Printed(ref) else Markers(refs) + "\n" + Printed(ref)
  {
    hide Printed;
    if refs == [] {
      assert refs + [ref] == [ref];
    } else {
      var tail := refs[1..];
      assert (refs + [ref])[1..] == tail + [ref] && (refs + [ref])[0] == refs[0];
      MarkersSnoc(tail, ref);
      if tail != [] {
        assert Printed(refs[0]) + "\n" + (Markers(tail) + "\n" + Printed(ref))
            == (Printed(refs[0]) + "\n" + Markers(tail)) + "\n" + Printed(ref);
      }
    }
  }

  /** The message in letters: the trimmed text and a blank line, then one marker per line. */
  lemma ComposeReads(text: string, refs: seq<string>, ref: string)
    ensures Compose(text, []) == if Trim(text) == "" then "" else Trim(text) + "\n\n"
    ensures Compose(text, refs + [ref])
            == Compose(text, refs) + ((if refs == [] then "" else "\n") + "[IMAGE:" + ref + "]")
  {
    hide Trim, Markers;
    NoMarkers();
    MarkersSnoc(refs, ref);
    var head := if Trim(text) == "" then "" else Trim(text) + Separator();
    assert head + "" == head;
    var marker := "[IMAGE:" + ref + "]";
    assert Printed(ref) == marker;
    if refs == [] {
      assert "" + "[IMAGE:" + ref + "]" == marker;
    } else {
      assert "\n" + "[IMAGE:" + ref + "]" == "\n" + marker;
      assert head + (Markers(refs) + "\n" + marker) == (head + Markers(refs)) + ("\n" + marker);
    }
  }

  // ---------------------------------------------------------------- reading back what was written

  /** A reference the printer can write and the parser can read: not blank, trimmed, without `]`. */
  predicate Printable(ref: string)
  {
    ref != "" && Trimmed(ref) && ']' !in ref
  }

  /** A message with one marker spelled out. */
  function Cut(pre: string, body: string, rest: string): string
  {
    pre + Marker() + body + "]" + rest
  }

  lemma CutAppend(pre: string, body: string, rest: string, more: string)
    ensures Cut(pre, body, rest) + more == Cut(pre, body, rest + more)
    ensures more + Cut(pre, body, rest) == Cut(more + pre, body, rest)
    ensures |Cut(pre, body, rest)| == |pre| + |Marker()| + |body| + 1 + |rest|
  {
    hide Marker;
  }

  lemma CutParts(pre: string, body: string, rest: string)
    ensures var s, k := Cut(pre, body, rest), |pre| + |Marker()|;
            && s[..|pre|] == pre && s[|pre|..k] == Marker()
            && s[k..] == body + "]" + rest
            && s[..k + |body| + 1] == Cut(pre, body, "")
  {
    hide Marker;
  }

  /** A marker in letters. */
  lemma CutReads(pre: string, body: string, rest: string)
    ensures Cut(pre, body, rest) == pre + "[IMAGE:" + body + "]" + rest
  {
  }

  /** The text in front of the next marker, and what follows it. */
  lemma ScanMarker(pre: string, body: string, rest: string)
    requires FindFirst(Cut(pre, body, rest), Marker()) == Some(|pre|)
    requires ']' !in body
    ensures Scan(Cut(pre, body, rest)) == if Blank(body) then (Cut(pre, body, Scan(rest).0), Scan(rest).1)
                                          else (pre + Scan(rest).0, [Trim(body)] + Scan(rest).1)
  {
    hide *;
    var s := Cut(pre, body, rest);
    CutParts(pre, body, rest);
    CutAppend(pre, body, rest, "");
    CutAppend(pre, body, "", Scan(rest).0);
    var k := |pre| + |Marker()|;
    var end := k + |body|;
    FirstClose(body, rest);
    assert s[0..] == s;
    assert s[k..end] == s[k..][..|body|] == body;
    assert s[end + 1..] == s[k..][|body| + 1..] == rest;
    ScanStep(s, 0, |pre|, end);
    assert s[0..|pre|] == pre;
    assert s[0..|pre|] + s[|pre|..end + 1] == s[..end + 1];
    assert "" + Scan(rest).0 == Scan(rest).0;
    BlankMeans(body);
  }

  lemma BlankMeans(s: string)
    ensures Blank(s) <==> Trim(s) == ""
  {
  }

  lemma FirstClose(body: string, rest: string)
    requires ']' !in body
    ensures FindFirst(body + "]" + rest, "]") == Some(|body|)
  {
    var s := body + "]" + rest;
    assert OccursAt(s, "]", |body|);
    forall j | 0 <= j < |body|
      ensures !OccursAt(s, "]", j)
    {
      assert s[j] == body[j];
      assert s[j] in body;
      assert s[j..j + 1] == [s[j]];
    }
    FindFirstIs(s, "]", |body|);
  }

  /** A message as its first marker cuts it. */
  lemma CutAtMarker(s: string) returns (pre: string, body: string, rest: string)
    requires FindFirst(s, Marker()).Some?
    requires FindFirst(s[FindFirst(s, Marker()).value + |Marker()|..], "]").Some?
    ensures s == Cut(pre, body, rest)
    ensures |pre| == FindFirst(s, Marker()).value && ']' !in body
    ensures body == s[|pre| + |Marker()|..][..|body|] && |body| == FindFirst(s[|pre| + |Marker()|..], "]").value
    ensures rest == s[|pre| + |Marker()|..][|body| + 1..]
  {
    hide FindFirst, Marker;
    var i := FindFirst(s, Marker()).value;
    pre := s[..i];
    var after := s[i + |Marker()|..];
    var j := FindFirst(after, "]").value;
    body, rest := after[..j], after[j + 1..];
    assert s[i..i + |Marker()|] == Marker();
    assert after[j..j + 1] == "]";
    NoEarlyClose(after, j);
    assert after == body + "]" + rest;
    assert s == pre + s[i..i + |Marker()|] + after;
  }

  lemma NoEarlyClose(after: string, j: nat)
    requires FindFirst(after, "]") == Some(j)
    ensures ']' !in after[..j]
  {
    hide FindFirst;
    forall k | 0 <= k < j
      ensures after[..j][k] != ']'
    {
      assert !OccursAt(after, "]", k);
      assert after[k..k + 1] == [after[k]];
    }
  }

  /** Appending text behind a complete marker does not move it. */
  lemma MarkerStays(pre: string, body: string, rest: string, more: string)
    requires FindFirst(Cut(pre, body, rest), Marker()) == Some(|pre|)
    ensures FindFirst(Cut(pre, body, rest + more), Marker()) == Some(|pre|)
  {
    hide FindFirst, Marker, OccursAt, Cut;
    var s := Cut(pre, body, rest);
    CutAppend(pre, body, rest, more);
    forall j | 0 <= j < |pre|
      ensures !OccursAt(s + more, Marker(), j)
    {
      OccursInPrefix(s, more, Marker(), j);
      assert !OccursAt(s, Marker(), j);
    }
    OccursInPrefix(s, more, Marker(), |pre|);
    FindFirstIs(s + more, Marker(), |pre|);
  }

  // ---------------------------------------------------------------- the printed markers

  /** The printed references begin with a marker, or there are none. */
  lemma MarkersSplit(refs: seq<string>) returns (rest: string)
    requires refs != []
    ensures Markers(refs) == Cut("", refs[0], rest)
    ensures rest == if |refs| == 1 then "" else "\n" + Markers(refs[1..])
  {
    hide Marker;
    rest := if |refs| == 1 then "" else "\n" + Markers(refs[1..]);
    if |refs| > 1 {
      assert Markers(refs) == Printed(refs[0]) + "\n" + Markers(refs[1..]);
    }
  }

  predicate Newlines(s: string)
  {
    forall i :: 0 <= i < |s| ==> s[i] == '\n'
  }

  lemma MarkerAfterNewlines(pre: string, body: string, rest: string)
    requires Newlines(pre)
    ensures FindFirst(Cut(pre, body, rest), Marker()) == Some(|pre|)
  {
    MarkerFacts();
    CutParts(pre, body, rest);
    CutAppend(pre, body, rest, "");
    hide FindFirst, Marker, Cut;
    var s := Cut(pre, body, rest);
    forall j | 0 <= j < |pre|
      ensures !OccursAt(s, Marker(), j)
    {
      assert s[j] == s[..|pre|][j] == '\n';
      NotAtOtherChar(s, Marker(), j);
    }
    FindFirstIs(s, Marker(), |pre|);
  }

  /** Scanning printed references gives them all back and keeps only line breaks. */
  lemma {:induction false} ScanMarkers(pre: string, refs: seq<string>)
    requires Newlines(pre) && forall r :: r in refs ==> Printable(r)
    ensures Scan(pre + Markers(refs)).1 == refs && Newlines(Scan(pre + Markers(refs)).0)
    decreases |refs|
  {
    hide FindFirst, Trim, Marker, Scan, Markers, Cut;
    NoMarkers();
    if refs == [] {
      assert pre + Markers(refs) == pre;
      NoMarkerInNewlines(pre);
      ScanEnds(pre);
    } else {
      var ref, tail := refs[0], refs[1..];
      assert ref in refs && refs == [ref] + tail;
      var rest := MarkersSplit(refs);
      CutAppend("", ref, rest, pre);
      assert pre + "" == pre;
      MarkerAfterNewlines(pre, ref, rest);
      ScanMarker(pre, ref, rest);
      TrimmedIsItself(ref);
      if |refs| == 1 {
        assert rest == "" + Markers(tail);
        ScanMarkers("", tail);
      } else {
        ScanMarkers("\n", tail);
      }
    }
  }

  lemma TrimmedIsItself(s: string)
    requires Trimmed(s)
    ensures Trim(s) == s
  {
    NothingToTrim(s);
  }

  lemma NoMarkerInNewlines(s: string)
    requires Newlines(s)
    ensures FindFirst(s, Marker()) == None
  {
    MarkerFacts();
    hide FindFirst, Marker;
    forall j
      ensures !OccursAt(s, Marker(), j)
    {
      NotAtOtherChar(s, Marker(), j);
    }
    FindFirstNone(s, Marker());
  }

  // ---------------------------------------------------------------- texts that survive the round trip

  /**
   Every marker in `t` is closed and blank, so the parser keeps all of `t`. A marker that is never
   closed is tolerated only when `open` allows it.
   */
  predicate Transparent(t: string, open: bool)
    decreases |t|
  {
    var i := FindFirst(t, Marker());
    if i.None? then true
    else
      var after := t[i.value + |Marker()|..];
      var j := FindFirst(after, "]");
      if j.None? then open else Blank(after[..j.value]) && Transparent(after[j.value + 1..], open)
  }

  /** What may follow the text: line breaks, then nothing or a marker. */
  predicate Continuation(m: string)
  {
    m == "" || Marker() <= m
  }

  /** The first marker behind a marker-free text is the continuation's own. */
  lemma NoMarkerAcross(t: string, m: string)
    requires FindFirst(t, Marker()) == None && Continuation(m)
    ensures FindFirst(t + Separator() + m, Marker()) == if m == "" then None else Some(|t| + 2)
  {
    MarkerFacts();
    hide FindFirst, Marker, Separator, OccursAt;
    var u := t + Separator() + m;
    forall j | j < |t| + 2
      ensures !OccursAt(u, Marker(), j)
    {
      NotAcrossBreak(t, m, j);
    }
    assert u == (t + Separator()) + m;
    if m == "" {
      PastTheEnd(u, Marker(), |t| + 2);
      FindFirstNone(u, Marker());
    } else {
      AtTheFront(m, Marker());
      OccursInSuffix(t + Separator(), m, Marker(), |t| + 2);
      FindFirstIs(u, Marker(), |t| + 2);
    }
  }

  lemma PastTheEnd(u: string, p: string, n: nat)
    requires n == |u| && p != ""
    ensures forall j :: j >= n ==> !OccursAt(u, p, j)
  {
  }

  lemma AtTheFront(m: string, p: string)
    requires p <= m
    ensures OccursAt(m, p, 0)
  {
  }

  lemma NotAcrossBreak(t: string, m: string, j: int)
    requires FindFirst(t, Marker()) == None && j < |t| + 2
    ensures !OccursAt(t + Separator() + m, Marker(), j)
  {
    MarkerFacts();
    hide FindFirst, Marker, Separator;
    var u := t + Separator() + m;
    assert u == t + (Separator() + m);
    assert !OccursAt(t, Marker(), j);
    OccursInPrefix(t, Separator() + m, Marker(), j);
    assert u[|t|] == '\n' && u[|t| + 1] == '\n';
    if OccursAt(u, Marker(), j) {
      OccursNotAcross(u, Marker(), j, if j <= |t| then |t| else |t| + 1);
    }
  }

  /** A transparent text in front of markers is kept whole, and adds no reference. */
  lemma {:induction false} TransparentScan(t: string, m: string)
    requires Transparent(t, false) && Continuation(m)
    ensures Scan(t + Separator() + m) == (t + Separator() + Scan(m).0, Scan(m).1)
    decreases |t|
  {
    hide FindFirst, Marker, Separator, Trim, Scan, Continuation, OccursAt, Cut;
    var u := t + Separator() + m;
    var i := FindFirst(t, Marker());
    if i.None? {
      NoMarkerAcross(t, m);
      MarkerFacts();
      ScanSkips(t + Separator(), m);
    } else {
      var pre, body, rest := CutAtMarker(t);
      var more := Separator() + m;
      CutAppend(pre, body, rest, more);
      assert u == t + more;
      assert rest + more == rest + Separator() + m;
      MarkerStays(pre, body, rest, more);
      ScanMarker(pre, body, rest + more);
      TransparentScan(rest, m);
      CutAppend(pre, body, rest, Separator() + Scan(m).0);
      assert rest + (Separator() + Scan(m).0) == rest + Separator() + Scan(m).0;
      assert t + (Separator() + Scan(m).0) == t + Separator() + Scan(m).0;
    }
  }

  /** A marker-free lead is kept as it is. */
  lemma ScanSkips(lead: string, m: string)
    requires FindFirst(lead + m, Marker()) == if m == "" then None else Some(|lead|)
    requires Continuation(m)
    ensures Scan(lead + m) == (lead + Scan(m).0, Scan(m).1)
  {
    MarkerFacts();
    hide FindFirst, Marker, Trim;
    if m == "" {
      assert lead + m == lead;
      NoMarkerInNewlines("");
      ScanEnds("");
    } else {
      assert m[0..|Marker()|] == Marker();
      FindFirstIs(m, Marker(), 0);
      ScanShift(lead, m);
    }
  }

  lemma ScanShift(lead: string, m: string)
    requires FindFirst(lead + m, Marker()) == Some(|lead|) && FindFirst(m, Marker()) == Some(0)
    ensures Scan(lead + m) == (lead + Scan(m).0, Scan(m).1)
  {
    hide *;
    OccursFits(m, Marker(), 0);
    var s := lead + m;
    if FindFirst(m[|Marker()|..], "]").None? {
      assert s[|lead| + |Marker()|..] == m[|Marker()|..];
      ScanEnds(s);
      ScanEnds(m);
    } else {
      var pre, body, rest := CutAtMarker(m);
      assert pre == "";
      CutAppend(pre, body, rest, lead);
      assert lead + pre == lead;
      ScanMarker(pre, body, rest);
      ScanMarker(lead, body, rest);
      CutAppend(pre, body, Scan(rest).0, lead);
      assert lead + (pre + Scan(rest).0) == lead + Scan(rest).0;
    }
  }

  lemma OccursFits(s: string, p: string, i: nat)
    requires FindFirst(s, p) == Some(i)
    ensures i + |p| <= |s|
  {
  }

  lemma PrintedIsContinuation(refs: seq<string>)
    ensures Continuation(Markers(refs))
  {
    hide Marker;
    if refs != [] {
      var rest := MarkersSplit(refs);
      assert Cut("", refs[0], rest) == Marker() + (refs[0] + "]" + rest);
    }
  }

  /** With nothing appended but the separator, only closed non-blank markers matter. */
  lemma {:induction false} ScanAlone(t: string)
    ensures Transparent(t, true) ==> Scan(t + Separator()) == (t + Separator(), [])
    ensures !Transparent(t, true) ==> Scan(t + Separator()).1 != []
    decreases |t|
  {
    hide FindFirst, Marker, Separator, Trim, Scan, OccursAt, Cut;
    var u := t + Separator();
    assert t + Separator() + "" == u;
    var i := FindFirst(t, Marker());
    MarkerInside(t);
    if i.None? {
      NoMarkerAcross(t, "");
      ScanEnds(u);
    } else if FindFirst(t[i.value + |Marker()|..], "]").None? {
      StillUnclosed(t, i.value);
      ScanEnds(u);
    } else {
      var pre, body, rest := CutAtMarker(t);
      CutAppend(pre, body, rest, Separator());
      MarkerStays(pre, body, rest, Separator());
      ScanMarker(pre, body, rest + Separator());
      ScanAlone(rest);
    }
  }

  lemma MarkerInside(t: string)
    ensures FindFirst(t, Marker()).Some? ==> FindFirst(t, Marker()).value + |Marker()| <= |t|
  {
    hide FindFirst, Marker;
  }

  lemma FirstMarkerStays(t: string, i: nat, more: string)
    requires FindFirst(t, Marker()) == Some(i)
    ensures FindFirst(t + more, Marker()) == Some(i) && i + |Marker()| <= |t|
  {
    OccursFits(t, Marker(), i);
    hide FindFirst, Marker, OccursAt;
    forall j | 0 <= j < i
      ensures !OccursAt(t + more, Marker(), j)
    {
      OccursInPrefix(t, more, Marker(), j);
      assert !OccursAt(t, Marker(), j);
    }
    OccursInPrefix(t, more, Marker(), i);
    FindFirstIs(t + more, Marker(), i);
  }

  lemma NoCloseIn(s: string)
    ensures FindFirst(s, "]") == None <==> ']' !in s
  {
    hide FindFirst;
    if FindFirst(s, "]") == None {
      forall k | 0 <= k < |s|
        ensures s[k] != ']'
      {
        assert !OccursAt(s, "]", k);
        assert s[k..k + 1] == [s[k]];
      }
    }
    if ']' !in s {
      forall j
        ensures !OccursAt(s, "]", j)
      {
        NotAtOtherChar(s, "]", j);
      }
      FindFirstNone(s, "]");
    }
  }

  lemma StillUnclosed(t: string, i: nat)
    requires FindFirst(t, Marker()) == Some(i) && i + |Marker()| <= |t|
    requires FindFirst(t[i + |Marker()|..], "]") == None
    ensures FindFirst(t + Separator(), Marker()) == Some(i)
    ensures FindFirst((t + Separator())[i + |Marker()|..], "]") == None
  {
    hide FindFirst, Marker;
    SeparatorIsNewlines();
    FirstMarkerStays(t, i, Separator());
    NoCloseIn(t[i + |Marker()|..]);
    NoCloseIn(t[i + |Marker()|..] + Separator());
    assert (t + Separator())[i + |Marker()|..] == t[i + |Marker()|..] + Separator();
  }

  /** An unclosed marker swallows the separator and the first printed marker. */
  lemma Swallow(t: string, refs: seq<string>) returns (pre: string, body: string, rest: string)
    requires FindFirst(t, Marker()).Some? && FindFirst(t[FindFirst(t, Marker()).value + |Marker()|..], "]").None?
    requires refs != [] && forall r :: r in refs ==> Printable(r)
    ensures t + Separator() + Markers(refs) == Cut(pre, body, rest)
    ensures FindFirst(Cut(pre, body, rest), Marker()) == Some(|pre|) && ']' !in body
    ensures |Trim(body)| > |refs[0]|
    ensures rest == if |refs| == 1 then "" else "\n" + Markers(refs[1..])
  {
    hide FindFirst, Trim, Markers, Marker, Separator;
    MarkerFacts();
    var ref := refs[0];
    assert ref in refs;
    var i := FindFirst(t, Marker()).value;
    OccursFits(t, Marker(), i);
    pre := t[..i];
    var tail := t[i + |Marker()|..];
    rest := MarkersSplit(refs);
    body := tail + Separator() + Marker() + ref;
    NoCloseIn(tail);
    MarkerAt(t, i);
    assert t == pre + Marker() + tail;
    SameText(t, pre, tail, ref, rest, refs);
    FirstMarkerStays(t, i, Separator() + Markers(refs));
    assert t + (Separator() + Markers(refs)) == t + Separator() + Markers(refs);
    LongAfterTrim(tail + Separator(), ref);
    assert tail + Separator() + (Marker() + ref) == body;
  }

  lemma MarkerAt(t: string, i: nat)
    requires FindFirst(t, Marker()) == Some(i)
    ensures i + |Marker()| <= |t| && t == t[..i] + Marker() + t[i + |Marker()|..]
  {
    hide Marker, FindFirst;
    assert OccursAt(t, Marker(), i);
    ThreeParts(t, i, i + |Marker()|);
  }

  lemma SameText(t: string, pre: string, tail: string, ref: string, rest: string, refs: seq<string>)
    requires t == pre + Marker() + tail && Markers(refs) == Cut("", ref, rest)
    ensures t + Separator() + Markers(refs) == Cut(pre, tail + Separator() + Marker() + ref, rest)
  {
    hide Marker, Separator, Markers;
  }

  /** A marker's opening and a trimmed reference survive trimming whatever stands in front. */
  lemma LongAfterTrim(lead: string, ref: string)
    requires Printable(ref)
    ensures |Trim(lead + (Marker() + ref))| > |ref|
  {
    MarkerFacts();
    hide Marker, Trim, AllWhite;
    var s := lead + (Marker() + ref);
    var a, b := TrimParts(s);
    var x := Trim(s) + b;
    assert s == a + x && s == (a + Trim(s)) + b;
    assert s[|s| - 1] == ref[|ref| - 1] && s[|lead|] == '[';
    if b != "" {
      LastIsWhite(a + Trim(s), b);
    }
    if |a| > |lead| {
      EachIsWhite(a, x, |lead|);
    }
  }

  lemma LastIsWhite(x: string, b: string)
    requires AllWhite(b) && b != ""
    ensures IsWhite((x + b)[|x + b| - 1])
  {
  }

  lemma EachIsWhite(a: string, x: string, k: nat)
    requires AllWhite(a) && k < |a|
    ensures IsWhite((a + x)[k])
  {
  }

  /** Whatever the text, no printed reference is lost. */
  lemma {:induction false} NoReferenceLost(t: string, refs: seq<string>)
    requires forall r :: r in refs ==> Printable(r)
    ensures |Scan(t + Separator() + Markers(refs)).1| >= |refs|
    decreases |t|
  {
    hide FindFirst, Marker, Separator, Trim, Scan, OccursAt, Cut, Markers;
    if refs != [] {
      var u := t + Separator() + Markers(refs);
      var i := FindFirst(t, Marker());
      MarkerInside(t);
      if i.None? {
        PrintedIsContinuation(refs);
        TransparentScan(t, Markers(refs));
        ScanMarkers("", refs);
        assert "" + Markers(refs) == Markers(refs);
      } else if FindFirst(t[i.value + |Marker()|..], "]").None? {
        var pre, body, rest := Swallow(t, refs);
        ScanMarker(pre, body, rest);
        TailScan(refs, rest);
      } else {
        var pre, body, rest := CutAtMarker(t);
        var more := Separator() + Markers(refs);
        CutAppend(pre, body, rest, more);
        assert u == t + more && rest + more == rest + Separator() + Markers(refs);
        MarkerStays(pre, body, rest, more);
        ScanMarker(pre, body, rest + more);
        NoReferenceLost(rest, refs);
      }
    }
  }

  lemma TailScan(refs: seq<string>, rest: string)
    requires refs != [] && forall r :: r in refs ==> Printable(r)
    requires rest == if |refs| == 1 then "" else "\n" + Markers(refs[1..])
    ensures Scan(rest).1 == refs[1..]
  {
    hide Scan, Markers;
    NoMarkers();
    if |refs| == 1 {
      assert refs[1..] == [] && rest == "" + Markers(refs[1..]);
      ScanMarkers("", refs[1..]);
    } else {
      ScanMarkers("\n", refs[1..]);
    }
  }

  /** A text that is not transparent changes the reference list. */
  lemma {:induction false} OpaqueTextShows(t: string, refs: seq<string>)
    requires refs != [] && !Transparent(t, false) && forall r :: r in refs ==> Printable(r)
    ensures Scan(t + Separator() + Markers(refs)).1 != refs
    decreases |t|
  {
    hide FindFirst, Marker, Separator, Trim, Scan, OccursAt, Cut, Markers;
    var u := t + Separator() + Markers(refs);
    var i := FindFirst(t, Marker());
    MarkerInside(t);
    if FindFirst(t[i.value + |Marker()|..], "]").None? {
      var pre, body, rest := Swallow(t, refs);
      ScanMarker(pre, body, rest);
      assert Scan(u).1 == [Trim(body)] + Scan(rest).1 || Blank(body);
      BlankMeans(body);
    } else {
      var pre, body, rest := CutAtMarker(t);
      var more := Separator() + Markers(refs);
      CutAppend(pre, body, rest, more);
      assert u == t + more && rest + more == rest + Separator() + Markers(refs);
      MarkerStays(pre, body, rest, more);
      ScanMarker(pre, body, rest + more);
      if Blank(body) {
        OpaqueTextShows(rest, refs);
      } else {
        NoReferenceLost(rest, refs);
      }
    }
  }

  lemma NewlinesAreWhite(s: string)
    requires Newlines(s)
    ensures AllWhite(s)
  {
  }

  lemma SeparatorIsNewlines()
    ensures Newlines(Separator())
  {
  }

  /** For printable references. */
  lemma PrintableRoundTrip(text: string, refs: seq<string>)
    requires forall r :: r in refs ==> Printable(r)
    ensures Parse(Compose(text, refs)) == (Trim(text), refs) <==> Transparent(Trim(text), refs == [])
    ensures !Contains(text, Marker()) ==> Parse(Compose(text, refs)) == (Trim(text), refs)
  {
    hide FindFirst, Contains, Marker, Separator, Trim, Scan, OccursAt, Cut, Markers, AllWhite, IsWhite;
    var t := Trim(text);
    if !Contains(text, Marker()) {
      MarkerFreeIsTransparent(text, refs == []);
    }
    var content := Compose(text, refs);
    NoMarkers();
    ScanMarkers("", refs);
    assert "" + Markers(refs) == Markers(refs);
    var w := Scan(Markers(refs)).0;
    NewlinesAreWhite(w);
    SeparatorIsNewlines();
    NewlinesAreWhite(Separator());
    if t == "" {
      BlankIffAllWhite(w);
      NoMarkerInNewlines("");
    } else if refs == [] {
      assert content == t + Separator();
      ScanAlone(t);
      TrimAlone(t, text, Separator());
    } else {
      PrintedIsContinuation(refs);
      if Transparent(t, false) {
        TransparentScan(t, Markers(refs));
        NewlinesAreWhite(Separator() + w);
        TrimAlone(t, text, Separator() + w);
        assert t + (Separator() + w) == t + Separator() + w;
      } else {
        OpaqueTextShows(t, refs);
      }
    }
  }

  lemma TrimAlone(t: string, text: string, w: string)
    requires t == Trim(text) && AllWhite(w)
    ensures Trim(t + w) == t
  {
    hide Trim, IsWhite;
    var a, b := TrimParts(text);
    TrimUnique("", t, w);
    assert "" + t + w == t + w;
  }

  /** A text without `[IMAGE:` is transparent. */
  lemma MarkerFreeIsTransparent(text: string, open: bool)
    requires !Contains(text, Marker())
    ensures Transparent(Trim(text), open)
  {
    hide Trim, Marker, FindFirst;
    var a, b := TrimParts(text);
    var t := Trim(text);
    forall j
      ensures !OccursAt(t, Marker(), j)
    {
      assert text == a + (t + b);
      OccursInPrefix(t, b, Marker(), j);
      OccursInSuffix(a, t + b, Marker(), j + |a|);
      assert !OccursAt(text, Marker(), j + |a|);
    }
    FindFirstNone(t, Marker());
  }

  lemma PrintedIsTrimmed(x: string)
    ensures Trim(Printed(x)) == Printed(x) && Printed(x) != ""
  {
    MarkerFacts();
    var s := Printed(x);
    assert s[0] == Marker()[0] == '[' && s[|s| - 1] == ']';
    TrimmedIsItself(s);
  }

  /** A text that is a marker itself does not come back: nothing is left of it, and its reference joins the others. */
  lemma MarkerInTextIsRead(x: string, refs: seq<string>)
    requires Printable(x) && forall r :: r in refs ==> Printable(r)
    ensures Parse(Compose(Printed(x), refs)) == ("", [x] + refs)
    ensures Parse(Compose(Printed(x), refs)) != (Trim(Printed(x)), refs)
  {
    hide FindFirst, Marker, Separator, Trim, Scan, Markers, AllWhite, IsWhite, Trimmed;
    PrintedIsTrimmed(x);
    var rest := Separator() + Markers(refs);
    AsCut(x, rest);
    assert Compose(Printed(x), refs) == Printed(x) + rest;
    MarkerAfterNewlines("", x, rest);
    ScanMarker("", x, rest);
    SeparatorIsNewlines();
    ScanMarkers(Separator(), refs);
    TrimmedIsItself(x);
    var w := Scan(rest).0;
    assert "" + w == w;
    NewlinesAreWhite(w);
    BlankIffAllWhite(w);
  }

  lemma AsCut(x: string, rest: string)
    ensures Printed(x) + rest == Cut("", x, rest)
  {
    hide Marker;
  }

  lemma TrimKeepsOut(s: string, c: char)
    requires c !in s
    ensures c !in Trim(s)
  {
    hide IsWhite, Trim;
    var lo, hi := TrimCut(s);
    assert forall i :: 0 <= i < hi - lo ==> s[lo..hi][i] == s[lo + i];
  }

  lemma CandidateIsPrintable(after: string, close: nat)
    requires FindFirst(after, "]") == Some(close)
    ensures Trim(after[..close]) != "" ==> Printable(Trim(after[..close]))
  {
    hide FindFirst, Trim, IsWhite;
    NoEarlyClose(after, close);
    TrimKeepsOut(after[..close], ']');
    var a, b := TrimParts(after[..close]);
  }

  /** Whatever is scanned, the references found are printable. */
  lemma {:induction false} ScannedArePrintable(s: string)
    ensures forall r :: r in Scan(s).1 ==> Printable(r)
    decreases |s|
  {
    hide FindFirst, Trim, Marker, Printable;
    var open := FindFirst(s, Marker());
    if open.Some? {
      var after := s[open.value + |Marker()|..];
      var close := FindFirst(after, "]");
      if close.Some? {
        CandidateIsPrintable(after, close.value);
        ScannedArePrintable(after[close.value + 1..]);
      }
    }
  }

  /**
   Parsing a composed message gives back the trimmed text and the same references exactly when the references are
   printable and the text's own markers are all closed and blank (an unclosed one is harmless when nothing follows it);
   in particular for every text without `[IMAGE:`.
   */
  lemma RoundTripExact(text: string, refs: seq<string>)
    ensures Parse(Compose(text, refs)) == (Trim(text), refs)
            <==> (forall r :: r in refs ==> Printable(r)) && Transparent(Trim(text), refs == [])
    ensures !Contains(text, Marker()) && (forall r :: r in refs ==> Printable(r)) ==> Parse(Compose(text, refs)) == (Trim(text), refs)
  {
    hide FindFirst, Contains, Marker, Trim, Scan, Compose, Printable, Transparent;
    ScannedArePrintable(Compose(text, refs));
    if forall r :: r in refs ==> Printable(r) {
      PrintableRoundTrip(text, refs);
    }
  }
}
