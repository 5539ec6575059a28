/**
 Removing tool-call markup from visible text: the tag loop, and the collapse of line-break runs.
 The DSML regex pass and the JSON parser are parameters.
 */
module ToolMarkup {
  import opened Wrappers
  import opened Text
  import opened LineBreaks

  function OpenTags(): seq<string>
  {
    ["<function_calls>", "<function_call>", "<tool_call>", "<toolcall>", "<tool-call>",
     "<tool_request>", "<tool>", "<invoke>", "<$call>"]
  }

  lemma OpenTagsLong()
    ensures forall t :: t in OpenTags() ==> |t| >= 2
  {
  }

  /** `<name>` closes with `</name>`. */
  function CloseTag(open: string): string
    requires |open| >= 2
  {
    "</" + open[1..]
  }

  /** The earliest occurrence of any of the tags; the first listed tag wins a tie. */
  function EarliestTag(s: string, tags: seq<string>): (r: Option<(nat, string)>)
    ensures r.None? ==> forall t, j :: t in tags ==> !OccursAt(s, t, j)
    ensures r.Some? ==> r.value.1 in tags && OccursAt(s, r.value.1, r.value.0)
                        && forall t, j :: t in tags && j < r.value.0 ==> !OccursAt(s, t, j)
  {
    if tags == [] then None
    else
      var rest := EarliestTag(s, tags[1..]);
      var first := FindFirst(s, tags[0]);
      if first.Some? && (rest.None? || first.value <= rest.value.0) then Some((first.value, tags[0])) else rest
  }

  ghost predicate HasOpenTag(s: string)
  {
    exists t, j :: t in OpenTags() && OccursAt(s, t, j)
  }

  ghost predicate NoTagBefore(s: string, start: nat)
  {
    forall t, j :: t in OpenTags() && j < start ==> !OccursAt(s, t, j)
  }

  /** The first open tag of the message. */
  function FirstOpenTag(s: string): (r: Option<(nat, string)>)
    ensures r.None? ==> !HasOpenTag(s)
    ensures r.Some? ==> r.value.1 in OpenTags() && NoTagBefore(s, r.value.0)
    ensures r.Some? ==> |r.value.1| >= 2 && r.value.0 + |r.value.1| <= |s| && r.value.1 <= s[r.value.0..]
  {
    OpenTagsLong();
    var r := EarliestTag(s, OpenTags());
    if r.Some? then
      OccursIsPrefix(s, r.value.1, r.value.0);
      r
    else r
  }

  lemma OccursIsPrefix(s: string, t: string, i: nat)
    requires OccursAt(s, t, i)
    ensures i + |t| <= |s| && t <= s[i..]
  {
  }

  // ---------------------------------------------------------------- what follows an unclosed tag

  /** The JSON parser stops inside its input. */
  ghost predicate InBounds(read: string -> Option<nat>)
  {
    forall x :: read(x).Some? ==> read(x).value <= |x|
  }

  /** Offset just behind the first JSON value in `s`, tried at every `{` and `[`; `read` is the JSON parser. */
  function JsonEndFrom(s: string, i: nat, read: string -> Option<nat>): (r: Option<nat>)
    requires i <= |s| && InBounds(read)
    ensures r.Some? ==> i < r.value <= |s|
    decreases |s| - i
  {
    if i == |s| then None
    else
      var n := if s[i] == '{' || s[i] == '[' then read(s[i..]) else None;
      if n.Some? && n.value > 0 then Some(i + n.value) else JsonEndFrom(s, i + 1, read)
  }

  function FirstJsonEnd(input: string, read: string -> Option<nat>): (r: Option<nat>)
    requires InBounds(read)
    ensures r.Some? ==> 0 < r.value <= |input|
  {
    var trimmed := TrimStart(input);
    var r := JsonEndFrom(trimmed, 0, read);
    if r.Some? then Some(|input| - |trimmed| + r.value) else None
  }

  predicate Suffix(r: string, s: string)
  {
    |r| <= |s| && r == s[|s| - |r|..]
  }

  lemma DropIsSuffix(s: string, k: nat)
    requires k <= |s|
    ensures Suffix(s[k..], s)
  {
  }

  lemma SuffixTrans(a: string, b: string, c: string)
    requires Suffix(a, b) && Suffix(b, c)
    ensures Suffix(a, c)
  {
  }

  /** What follows the first closing tag of `s`. */
  function SkipCloseTag(s: string): (r: string)
    requires "</" <= s
    ensures |r| < |s| && Suffix(r, s)
  {
    var close := FindFirst(s, ">");
    if close.None? then s[|s|..] else s[close.value + 1..]
  }

  lemma TrimStartIsSuffix(s: string)
    ensures Suffix(TrimStart(s), s)
  {
    hide TrimStart;
  }

  /** Drops white space and closing tags at the front. */
  function DropCloseTags(input: string): (r: string)
    ensures Suffix(r, input)
    decreases |input|
  {
    TrimStartIsSuffix(input);
    var trimmed := TrimStart(input);
    if !("</" <= trimmed) then trimmed
    else if FindFirst(trimmed, ">").None? then ""
    else
      var rest := SkipCloseTag(trimmed);
      SuffixTrans(rest, trimmed, input);
      SuffixTrans(DropCloseTags(rest), rest, input);
      DropCloseTags(rest)
  }

  method StripLeadingCloseTags(message: string) returns (r: string)
    ensures r == DropCloseTags(message)
  {
    hide FindFirst, TrimStart;
    var input := message;
    while true
      invariant DropCloseTags(message) == DropCloseTags(input)
      decreases |input|
    {
      var trimmed := TrimStart(input);
      if !("</" <= trimmed) {
        return trimmed;
      }
      var close := FindFirst(trimmed, ">");
      if close.None? {
        return "";
      }
      input := trimmed[close.value + 1..];
    }
  }

  // ---------------------------------------------------------------- the message as kept and dropped pieces

  datatype Piece = Kept(text: string) | Dropped(text: string, tag: string)

  /** What remains behind the tag's element, if the element can be recognised. */
  function Behind(tag: string, after: string, read: string -> Option<nat>): (r: Option<string>)
    requires |tag| >= 2 && InBounds(read)
    ensures r.Some? ==> Suffix(r.value, after)
  {
    var close := FindFirst(after, CloseTag(tag));
    if close.Some? then Some(after[close.value + |CloseTag(tag)|..])
    else
      var end := FirstJsonEnd(after, read);
      if end.None? then None
      else
        var rest := DropCloseTags(after[end.value..]);
        DropIsSuffix(after, end.value);
        SuffixTrans(rest, after[end.value..], after);
        Some(rest)
  }

  /** What the loop finds in front of it: no tag, a tag it cannot end, or an element to cut out. */
  datatype Turn = NoTag | Endless(start: nat, tag: string) | Element(start: nat, tag: string, rest: string)

  function NextTurn(s: string, read: string -> Option<nat>): (t: Turn)
    requires InBounds(read)
    ensures t.Endless? ==> t.start < |s|
    ensures t.Element? ==> t.start + |t.rest| < |s| && Suffix(t.rest, s)
  {
    var found := FirstOpenTag(s);
    if found.None? then NoTag
    else
      var (start, tag) := found.value;
      var rest := Behind(tag, s[start + |tag|..], read);
      if rest.None? then Endless(start, tag)
      else
        DropIsSuffix(s, start + |tag|);
        SuffixTrans(rest.value, s[start + |tag|..], s);
        Element(start, tag, rest.value)
  }

  function KeepIfAny(s: string): seq<Piece>
  {
    if s == "" then [] else [Kept(s)]
  }

  function Pieces(s: string, read: string -> Option<nat>): seq<Piece>
    requires InBounds(read)
    decreases |s|
  {
    match NextTurn(s, read)
    case NoTag => KeepIfAny(s)
    case Endless(start, tag) => KeepIfAny(s[..start]) + [Kept(s[start..])]
    case Element(start, tag, rest) =>
      KeepIfAny(s[..start]) + [Dropped(s[start..|s| - |rest|], tag)] + Pieces(rest, read)
  }

  function KeptTexts(ps: seq<Piece>): seq<string>
  {
    if ps == [] then []
    else (if ps[0].Kept? then [ps[0].text] else []) + KeptTexts(ps[1..])
  }

  function AllTexts(ps: seq<Piece>): seq<string>
  {
    if ps == [] then [] else [ps[0].text] + AllTexts(ps[1..])
  }

  function Concat(parts: seq<string>): string
  {
    if parts == [] then "" else parts[0] + Concat(parts[1..])
  }

  lemma {:induction false} KeptTextsAppend(a: seq<Piece>, b: seq<Piece>)
    ensures KeptTexts(a + b) == KeptTexts(a) + KeptTexts(b)
  {
    if a == [] {
      assert a + b == b;
    } else {
      assert (a + b)[0] == a[0] && (a + b)[1..] == a[1..] + b;
      KeptTextsAppend(a[1..], b);
    }
  }

  lemma {:induction false} AllTextsAppend(a: seq<Piece>, b: seq<Piece>)
    ensures AllTexts(a + b) == AllTexts(a) + AllTexts(b)
  {
    if a == [] {
      assert a + b == b;
    } else {
      assert (a + b)[0] == a[0] && (a + b)[1..] == a[1..] + b;
      AllTextsAppend(a[1..], b);
    }
  }

  lemma {:induction false} ConcatAppend(a: seq<string>, b: seq<string>)
    ensures Concat(a + b) == Concat(a) + Concat(b)
  {
    if a == [] {
      assert a + b == b;
    } else {
      assert (a + b)[0] == a[0] && (a + b)[1..] == a[1..] + b;
      ConcatAppend(a[1..], b);
    }
  }

  // ---------------------------------------------------------------- nothing is invented, moved or lost

  lemma LeadTexts(s: string)
    ensures Concat(AllTexts(KeepIfAny(s))) == s
    ensures KeptTexts(KeepIfAny(s)) == if s == "" then [] else [s]
  {
    if s != "" {
      assert [Kept(s)][1..] == [];
      assert AllTexts([Kept(s)]) == [s];
      assert [s][1..] == [];
    }
  }

  lemma OnePiece(p: Piece)
    ensures AllTexts([p]) == [p.text] && KeptTexts([p]) == if p.Kept? then [p.text] else []
    ensures Concat(AllTexts([p])) == p.text
  {
    assert [p][1..] == [];
    assert [p.text][1..] == [];
  }

  lemma LaidOut(a: seq<Piece>, p: Piece, b: seq<Piece>)
    ensures Concat(AllTexts(a + [p] + b)) == Concat(AllTexts(a)) + p.text + Concat(AllTexts(b))
    ensures KeptTexts(a + [p] + b) == KeptTexts(a) + (if p.Kept? then [p.text] else []) + KeptTexts(b)
  {
    hide *;
    OnePiece(p);
    KeptTextsAppend(a, [p]);
    KeptTextsAppend(a + [p], b);
    AllTextsAppend(a, [p]);
    AllTextsAppend(a + [p], b);
    ConcatAppend(AllTexts(a), AllTexts([p]));
    ConcatAppend(AllTexts(a) + AllTexts([p]), AllTexts(b));
  }

  lemma NothingLaidOut()
    ensures AllTexts([]) == [] && KeptTexts([]) == [] && Concat([]) == ""
  {
  }

  /** One turn of the loop, as a step on the pieces. */
  lemma PiecesUnfold(s: string, read: string -> Option<nat>)
    requires InBounds(read)
    ensures var t := NextTurn(s, read);
            Pieces(s, read)
            == if t.NoTag? then KeepIfAny(s)
               else if t.Endless? then KeepIfAny(s[..t.start]) + [Kept(s[t.start..])]
               else KeepIfAny(s[..t.start]) + [Dropped(s[t.start..|s| - |t.rest|], t.tag)] + Pieces(t.rest, read)
  {
    hide NextTurn, KeepIfAny, InBounds;
  }

  lemma Retiled(s: string, i: nat, rest: string)
    requires Suffix(rest, s) && i + |rest| <= |s|
    ensures s[..i] + s[i..|s| - |rest|] + rest == s
  {
  }

  /** The pieces tile the message. */
  lemma {:induction false} PiecesTile(s: string, read: string -> Option<nat>)
    requires InBounds(read)
    ensures Concat(AllTexts(Pieces(s, read))) == s
    decreases |s|
  {
    hide *;
    PiecesUnfold(s, read);
    match NextTurn(s, read)
    case NoTag =>
      LeadTexts(s);
    case Endless(start, tag) =>
      LeadTexts(s[..start]);
      var lead := KeepIfAny(s[..start]);
      LaidOut(lead, Kept(s[start..]), []);
      NothingLaidOut();
      assert lead + [Kept(s[start..])] + [] == lead + [Kept(s[start..])];
      assert s[..start] + s[start..] + "" == s;
    case Element(start, tag, rest) =>
      LeadTexts(s[..start]);
      PiecesTile(rest, read);
      LaidOut(KeepIfAny(s[..start]), Dropped(s[start..|s| - |rest|], tag), Pieces(rest, read));
      Retiled(s, start, rest);
  }

  // ---------------------------------------------------------------- what is kept and what is dropped

  /** A dropped piece is an open tag with its close tag, or with a JSON value behind it. */
  ghost predicate IsElement(p: Piece, read: string -> Option<nat>)
    requires InBounds(read)
  {
    p.Dropped? && p.tag in OpenTags() && |p.tag| >= 2 && p.tag <= p.text
    && exists after :: p.text[|p.tag|..] <= after && Behind(p.tag, after, read) == Some(after[|p.text| - |p.tag|..])
  }

  /** A kept piece that begins with an open tag which nothing closes and no JSON value follows. */
  ghost predicate IsUnfinished(p: Piece, read: string -> Option<nat>)
    requires InBounds(read)
  {
    p.Kept? && exists tag :: tag in OpenTags() && |tag| >= 2 && tag <= p.text && Behind(tag, p.text[|tag|..], read) == None
  }

  lemma LeadHasNoTag(s: string, read: string -> Option<nat>)
    requires InBounds(read)
    ensures var t := NextTurn(s, read);
            if t.NoTag? then !HasOpenTag(s) else !HasOpenTag(s[..t.start])
  {
    hide FirstOpenTag, NoTagBefore, HasOpenTag, Behind, InBounds;
    var found := FirstOpenTag(s);
    if found.Some? {
      LeadIsClean(s, found.value.0);
    }
  }

  lemma LeadIsClean(s: string, start: nat)
    requires start <= |s| && NoTagBefore(s, start)
    ensures !HasOpenTag(s[..start])
  {
    hide OpenTags;
    OpenTagsLong();
    forall t, j | t in OpenTags()
      ensures !OccursAt(s[..start], t, j)
    {
      assert s == s[..start] + s[start..];
      OccursInPrefix(s[..start], s[start..], t, j);
      if j < start {
        assert !OccursAt(s, t, j);
      }
    }
  }

  lemma EndlessIsUnfinished(s: string, read: string -> Option<nat>)
    requires InBounds(read) && NextTurn(s, read).Endless?
    ensures IsUnfinished(Kept(s[NextTurn(s, read).start..]), read)
  {
    hide FirstOpenTag, NoTagBefore, HasOpenTag, OpenTags, Behind, InBounds;
    var (start, tag) := FirstOpenTag(s).value;
    assert s[start..][|tag|..] == s[start + |tag|..];
    assert tag <= s[start..];
  }

  lemma ElementIsElement(s: string, read: string -> Option<nat>)
    requires InBounds(read) && NextTurn(s, read).Element?
    ensures var t := NextTurn(s, read);
            IsElement(Dropped(s[t.start..|s| - |t.rest|], t.tag), read)
  {
    hide FirstOpenTag, NoTagBefore, HasOpenTag, OpenTags, Behind, InBounds;
    var (start, tag) := FirstOpenTag(s).value;
    var after := s[start + |tag|..];
    var rest := Behind(tag, after, read).value;
    var dropped := s[start..|s| - |rest|];
    assert dropped[|tag|..] == after[..|after| - |rest|];
    assert tag <= dropped;
  }

  lemma LeadPieces(s: string, k: nat)
    requires k < |KeepIfAny(s)|
    ensures k == 0 && KeepIfAny(s) == [Kept(s)]
  {
  }

  /** Piece `k` is an element, or free of open tags, or an unfinished last piece. */
  ghost predicate WellCut(ps: seq<Piece>, k: nat, read: string -> Option<nat>)
    requires InBounds(read) && k < |ps|
  {
    if ps[k].Dropped? then IsElement(ps[k], read)
    else !HasOpenTag(ps[k].text) || (k == |ps| - 1 && IsUnfinished(ps[k], read))
  }

  /** Every kept piece is free of open tags, except possibly an unfinished last one. */
  lemma {:induction false} PiecesWellCut(s: string, read: string -> Option<nat>, k: nat)
    requires InBounds(read) && k < |Pieces(s, read)|
    ensures WellCut(Pieces(s, read), k, read)
    decreases |s|
  {
    hide *;
    PiecesUnfold(s, read);
    LeadHasNoTag(s, read);
    match NextTurn(s, read)
    case NoTag =>
      LeadPieces(s, k);
      CleanIsWellCut(Pieces(s, read), k, read);
    case Endless(start, tag) =>
      if k < |KeepIfAny(s[..start])| {
        LeadPieces(s[..start], k);
        CleanIsWellCut(Pieces(s, read), k, read);
      } else {
        EndlessIsUnfinished(s, read);
        LastIsWellCut(Pieces(s, read), k, read);
      }
    case Element(start, tag, rest) =>
      var lead := KeepIfAny(s[..start]);
      if k < |lead| {
        LeadPieces(s[..start], k);
        CleanIsWellCut(Pieces(s, read), k, read);
      } else if k == |lead| {
        ElementIsElement(s, read);
        ElementIsWellCut(Pieces(s, read), k, read);
      } else {
        PiecesWellCut(rest, read, k - |lead| - 1);
        WellCutShift(lead + [Dropped(s[start..|s| - |rest|], tag)], Pieces(rest, read), k, read);
      }
  }

  lemma CleanIsWellCut(ps: seq<Piece>, k: nat, read: string -> Option<nat>)
    requires InBounds(read) && k < |ps| && ps[k].Kept? && !HasOpenTag(ps[k].text)
    ensures WellCut(ps, k, read)
  {
  }

  lemma LastIsWellCut(ps: seq<Piece>, k: nat, read: string -> Option<nat>)
    requires InBounds(read) && k == |ps| - 1 && IsUnfinished(ps[k], read)
    ensures WellCut(ps, k, read)
  {
  }

  lemma ElementIsWellCut(ps: seq<Piece>, k: nat, read: string -> Option<nat>)
    requires InBounds(read) && k < |ps| && IsElement(ps[k], read)
    ensures WellCut(ps, k, read)
  {
  }

  lemma WellCutShift(a: seq<Piece>, b: seq<Piece>, k: nat, read: string -> Option<nat>)
    requires InBounds(read) && |a| <= k < |a + b| && WellCut(b, k - |a|, read)
    ensures WellCut(a + b, k, read)
  {
    hide IsElement, IsUnfinished, HasOpenTag, InBounds;
    assert (a + b)[k] == b[k - |a|];
  }

  // ---------------------------------------------------------------- the loop

  lemma KeptTurn(s: string, read: string -> Option<nat>)
    requires InBounds(read)
    ensures var t := NextTurn(s, read);
            KeptTexts(Pieces(s, read))
            == if t.NoTag? then Nonempty(s)
               else if t.Endless? then Nonempty(s[..t.start]) + [s[t.start..]]
               else Nonempty(s[..t.start]) + KeptTexts(Pieces(t.rest, read))
  {
    hide *;
    PiecesUnfold(s, read);
    match NextTurn(s, read)
    case NoTag =>
      LeadKept(s);
    case Endless(start, tag) =>
      LeadKept(s[..start]);
      var lead := KeepIfAny(s[..start]);
      LaidOut(lead, Kept(s[start..]), []);
      NothingLaidOut();
      assert lead + [Kept(s[start..])] + [] == lead + [Kept(s[start..])];
    case Element(start, tag, rest) =>
      LeadKept(s[..start]);
      LaidOut(KeepIfAny(s[..start]), Dropped(s[start..|s| - |rest|], tag), Pieces(rest, read));
  }

  function Nonempty(s: string): seq<string>
  {
    if s == "" then [] else [s]
  }

  lemma LeadKept(s: string)
    ensures KeptTexts(KeepIfAny(s)) == Nonempty(s)
  {
    LeadTexts(s);
  }

  lemma TurnCases(s: string, read: string -> Option<nat>)
    requires InBounds(read)
    ensures var found := FirstOpenTag(s);
            if found.None? then NextTurn(s, read) == NoTag
            else
              var rest := Behind(found.value.1, s[found.value.0 + |found.value.1|..], read);
              NextTurn(s, read) == if rest.None? then Endless(found.value.0, found.value.1)
                                   else Element(found.value.0, found.value.1, rest.value)
  {
    hide FirstOpenTag, Behind, InBounds;
  }

  lemma BehindCases(tag: string, after: string, read: string -> Option<nat>)
    requires |tag| >= 2 && InBounds(read)
    ensures var close := FindFirst(after, CloseTag(tag));
            var end := FirstJsonEnd(after, read);
            Behind(tag, after, read) ==
            if close.Some? then Some(after[close.value + |CloseTag(tag)|..])
            else if end.Some? then Some(DropCloseTags(after[end.value..])) else None
  {
    hide FindFirst, FirstJsonEnd, DropCloseTags, CloseTag, InBounds;
  }

  lemma CloseInside(after: string, p: string)
    ensures FindFirst(after, p).Some? ==> FindFirst(after, p).value + |p| <= |after|
  {
    hide FindFirst;
  }

  lemma KeptIf(kept: seq<string>, s: string)
    ensures kept + Nonempty(s) == if s != "" then kept + [s] else kept
  {
  }

  /** Finds the end of the element that `tag` opens in front of `after`. */
  method SkipElement(tag: string, after: string, read: string -> Option<nat>) returns (rest: Option<string>)
    requires |tag| >= 2 && InBounds(read)
    ensures rest == Behind(tag, after, read)
  {
    hide *;
    BehindCases(tag, after, read);
    CloseInside(after, CloseTag(tag));
    var close := FindFirst(after, CloseTag(tag));
    if close.Some? {
      return Some(after[close.value + |CloseTag(tag)|..]);
    }
    var end := FirstJsonEnd(after, read);
    if end.None? {
      return None;
    }
    var behind := StripLeadingCloseTags(after[end.value..]);
    return Some(behind);
  }

  /** What the loop has kept, and what it still has to keep of the rest of the message. */
  ghost predicate Keeping(message: string, read: string -> Option<nat>, kept: seq<string>, remaining: string)
    requires InBounds(read)
  {
    KeptTexts(Pieces(message, read)) == kept + KeptTexts(Pieces(remaining, read))
  }

  lemma KeepingStarts(message: string, read: string -> Option<nat>)
    requires InBounds(read)
    ensures Keeping(message, read, [], message)
  {
    hide KeptTexts, Pieces, InBounds;
  }

  /** One turn of the loop. */
  lemma KeepingTurn(message: string, read: string -> Option<nat>, kept: seq<string>, s: string)
    requires InBounds(read) && Keeping(message, read, kept, s)
    ensures var t, all := NextTurn(s, read), KeptTexts(Pieces(message, read));
            if t.NoTag? then all == kept + Nonempty(s)
            else if t.Endless? then all == (kept + Nonempty(s[..t.start])) + [s[t.start..]]
            else Keeping(message, read, kept + Nonempty(s[..t.start]), t.rest)
  {
    hide KeptTexts, Pieces, InBounds, NextTurn, Nonempty;
    KeptTurn(s, read);
  }

  /** The tag loop keeps exactly the kept pieces, in order. */
  method KeepSegments(message: string, read: string -> Option<nat>) returns (kept: seq<string>)
    requires InBounds(read)
    ensures kept == KeptTexts(Pieces(message, read))
  {
    hide *;
    kept := [];
    var remaining := message;
    KeepingStarts(message, read);
    var found := FirstOpenTag(remaining);
    while found.Some?
      invariant found == FirstOpenTag(remaining)
      invariant Keeping(message, read, kept, remaining)
      decreases |remaining|
    {
      TurnCases(remaining, read);
      KeepingTurn(message, read, kept, remaining);
      var start, tag := found.value.0, found.value.1;
      var before := remaining[..start];
      KeptIf(kept, before);
      if before != "" {
        kept := kept + [before];
      }
      var rest := SkipElement(tag, remaining[start + |tag|..], read);
      if rest.None? {
        kept := kept + [remaining[start..]];
        return;
      }
      remaining := rest.value;
      found := FirstOpenTag(remaining);
    }
    TurnCases(remaining, read);
    KeepingTurn(message, read, kept, remaining);
    KeptIf(kept, remaining);
    if remaining != "" {
      kept := kept + [remaining];
    }
  }

  /** The whole pass: markup elements cut out, line-break runs capped, white space trimmed; `dsml` is the regex pass. */
  method StripToolCallMarkup(message: string, dsml: string -> string, read: string -> Option<nat>) returns (r: string)
    requires InBounds(read)
    ensures r == Trim(Cap(0, Concat(KeptTexts(Pieces(dsml(message), read)))))
    ensures Trimmed(r) && !Contains(r, Triple())
    ensures !HasOpenTag(dsml(message)) ==> r == Trim(Cap(0, dsml(message)))
  {
    hide *;
    var kept := KeepSegments(dsml(message), read);
    var result := Collapse(Concat(kept));
    r := Trim(result);
    var a, b := TrimParts(result);
    PartOfCapped(a, r, b);
    if !HasOpenTag(dsml(message)) {
      UntaggedKept(dsml(message), read);
    }
  }

  /** A message without open tags is kept whole. */
  lemma UntaggedKept(s: string, read: string -> Option<nat>)
    requires InBounds(read) && !HasOpenTag(s)
    ensures Concat(KeptTexts(Pieces(s, read))) == s
  {
    hide *;
    TurnCases(s, read);
    UntaggedFirst(s);
    PiecesUnfold(s, read);
    LeadTexts(s);
    AllKept(s);
  }

  lemma UntaggedFirst(s: string)
    requires !HasOpenTag(s)
    ensures FirstOpenTag(s).None?
  {
    hide FirstOpenTag, HasOpenTag;
    if FirstOpenTag(s).Some? {
      FoundIsThere(s);
    }
  }

  lemma FoundIsThere(s: string)
    requires FirstOpenTag(s).Some?
    ensures HasOpenTag(s)
  {
    hide EarliestTag, FirstOpenTag, OpenTags;
    var (start, tag) := FirstOpenTag(s).value;
    assert s[start..start + |tag|] == tag;
    assert OccursAt(s, tag, start);
  }

  lemma AllKept(s: string)
    ensures KeptTexts(KeepIfAny(s)) == AllTexts(KeepIfAny(s))
  {
    OnePiece(Kept(s));
    NothingLaidOut();
  }

  lemma PartOfCapped(a: string, t: string, b: string)
    requires !Contains(a + t + b, Triple())
    ensures !Contains(t, Triple())
  {
    hide Triple, Contains;
    if Contains(t, Triple()) {
      ContainsInside(a, t, b, Triple());
    }
  }

  lemma ContainsInside(a: string, t: string, b: string, p: string)
    requires Contains(t, p)
    ensures Contains(a + t + b, p)
  {
    var i :| OccursAt(t, p, i);
    OccursInPrefix(t, b, p, i);
    OccursInSuffix(a, t + b, p, i + |a|);
    assert a + t + b == a + (t + b);
    assert OccursAt(a + t + b, p, i + |a|);
  }
}
