/**
 Dropping the internodal footer from a report: find where a `HANDOFF` heading, a verdict field of an
 envelope, or a rule in front of either begins, and keep what stands before it.
 */
module InternodalSuffix {
  import opened Wrappers
  import opened Text

  // ---------------------------------------------------------------- line classifiers

  function DropFront(s: string, chars: set<char>): string
  {
    if s != "" && s[0] in chars then DropFront(s[1..], chars) else s
  }

  function DropBack(s: string, chars: set<char>): string
  {
    if s != "" && s[|s| - 1] in chars then DropBack(s[..|s| - 1], chars) else s
  }

  /** A line without heading, list and emphasis marks, in lower case. */
  function LineKey(line: string): string
  {
    var t := Trim(DropFront(Trim(line), {'#'}));
    var u := Trim(DropFront(t, {'-', '*'}));
    Lower(Trim(DropBack(DropFront(u, {'*'}), {'*'})))
  }

  predicate IsHandoffHeading(line: string)
  {
    Trim(DropBack(LineKey(line), {':'})) == "handoff"
  }

  predicate IsVerdictFieldLine(line: string)
  {
    var t := LineKey(line);
    t == "verdict" || t == "verdict:" || "verdict:" <= t
  }

  predicate IsRule(line: string)
  {
    Trim(line) == "---"
  }

  // ---------------------------------------------------------------- envelopes

  /** The first line, without its terminator. */
  function FirstLine(s: string): string
  {
    var n := FindFirst(s, "\n");
    if n.None? then s
    else if n.value > 0 && s[n.value - 1] == '\r' then s[..n.value - 1]
    else s[..n.value]
  }

  function PointerKeys(): seq<string>
  {
    ["\npointers:", "\n## pointers", "\npointers\n", "\n- pointers:"]
  }

  function GapKeys(): seq<string>
  {
    ["\ngaps:", "\n## gaps", "\ngaps\n", "\n- gaps:"]
  }

  predicate Has(s: string, p: string)
  {
    FindFirst(s, p).Some?
  }

  predicate HasAny(s: string, ps: seq<string>)
  {
    exists i :: 0 <= i < |ps| && Has(s, ps[i])
  }

  /** The field names of an envelope occur in the lower-cased body. */
  predicate EnvelopeFields(lower: string, handoff: bool)
  {
    || (Has(lower, "verdict:") && HasAny(lower, PointerKeys()) && HasAny(lower, GapKeys()))
    || (Has(lower, "\"pointers\"") && (handoff || Has(lower, "verdict:") || Has(lower, "handoff")))
  }

  predicate LooksLikeEnvelope(text: string)
  {
    var trimmed := TrimStart(text);
    trimmed != "" && EnvelopeBody(trimmed)
  }

  predicate EnvelopeBody(trimmed: string)
  {
    var handoff := IsHandoffHeading(Trim(FirstLine(trimmed)));
    handoff || EnvelopeFields(Lower(trimmed), handoff)
  }

  // ---------------------------------------------------------------- the scan

  /** End of the line that begins at `offset`, including its line break. */
  function LineEnd(text: string, offset: nat): (e: nat)
    requires offset < |text|
    ensures offset < e <= |text|
    ensures forall k :: offset <= k < e - 1 ==> text[k] != '\n'
    ensures e < |text| ==> text[e - 1] == '\n'
    decreases |text| - offset
  {
    if text[offset] == '\n' || offset + 1 == |text| then offset + 1 else LineEnd(text, offset + 1)
  }

  predicate IsLineStart(text: string, i: nat)
  {
    i == 0 || (i <= |text| && text[i - 1] == '\n')
  }

  /** Whether a footer begins at `start`, judged at a line behind the rule or at `start` itself. */
  predicate Opens(text: string, line: string, start: nat)
    requires start <= |text|
  {
    IsHandoffHeading(Trim(line)) || (IsVerdictFieldLine(Trim(line)) && LooksLikeEnvelope(text[start..]))
  }

  function ScanFrom(text: string, offset: nat, afterRule: Option<nat>): (r: Option<nat>)
    requires offset <= |text| && (afterRule.Some? ==> afterRule.value < offset)
    decreases |text| - offset
  {
    if offset == |text| then None
    else
      var end := LineEnd(text, offset);
      var line := text[offset..end];
      if IsRule(line) then ScanFrom(text, end, Some(offset))
      else
        var start := if afterRule.Some? then afterRule.value else offset;
        if Opens(text, line, start) then Some(start) else ScanFrom(text, end, None)
  }

  function SuffixStart(text: string): Option<nat>
  {
    ScanFrom(text, 0, None)
  }

  method InternodalSuffixStart(text: string) returns (r: Option<nat>)
    ensures r == SuffixStart(text)
  {
    hide LineEnd, IsRule, Opens;
    var offset := 0;
    var afterRule: Option<nat> := None;
    while offset < |text|
      invariant offset <= |text| && (afterRule.Some? ==> afterRule.value < offset)
      invariant SuffixStart(text) == ScanFrom(text, offset, afterRule)
    {
      var end := LineEnd(text, offset);
      var line := text[offset..end];
      if IsRule(line) {
        afterRule := Some(offset);
        offset := end;
        continue;
      }
      var start := if afterRule.Some? then afterRule.value else offset;
      if Opens(text, line, start) {
        return Some(start);
      }
      afterRule := None;
      offset := end;
    }
    return None;
  }

  function StripSuffix(text: string): string
    ensures SuffixStart(text).Some? ==> SuffixStart(text).value <= |text|
  {
    StartInText(text, 0, None);
    match SuffixStart(text)
    case None => text
    case Some(i) => if i == 0 then text else TrimEnd(text[..i])
  }

  lemma {:induction false} StartInText(text: string, offset: nat, afterRule: Option<nat>)
    requires offset <= |text| && (afterRule.Some? ==> afterRule.value < offset)
    requires IsLineStart(text, offset) || offset == |text|
    requires afterRule.Some? ==> IsLineStart(text, afterRule.value)
    ensures var r := ScanFrom(text, offset, afterRule);
            r.Some? ==> r.value < |text| && IsLineStart(text, r.value) && (r.value >= offset || r == afterRule)
    decreases |text| - offset
  {
    hide IsRule, Opens, LineEnd;
    if offset < |text| {
      var end := LineEnd(text, offset);
      var line := text[offset..end];
      if IsRule(line) {
        StartInText(text, end, Some(offset));
      } else if !Opens(text, line, if afterRule.Some? then afterRule.value else offset) {
        StartInText(text, end, None);
      }
    }
  }

  // ---------------------------------------------------------------- detection only weakens on a shorter text

  lemma LowerPrefix(a: string, b: string)
    ensures Lower(a + b) == Lower(a) + Lower(b)
  {
  }

  lemma HasMonotone(a: string, b: string, p: string)
    ensures Has(a, p) ==> Has(a + b, p)
  {
    hide FindFirst;
    if Has(a, p) {
      var i := FindFirst(a, p).value;
      OccursInPrefix(a, b, p, i);
    }
  }

  lemma HasAnyMonotone(a: string, b: string, ps: seq<string>)
    ensures HasAny(a, ps) ==> HasAny(a + b, ps)
  {
    hide Has;
    if HasAny(a, ps) {
      var i :| 0 <= i < |ps| && Has(a, ps[i]);
      HasMonotone(a, b, ps[i]);
    }
  }

  lemma FieldsMonotone(a: string, b: string, handoff: bool)
    ensures EnvelopeFields(a, handoff) ==> EnvelopeFields(a + b, handoff)
  {
    hide Has, HasAny, PointerKeys, GapKeys;
    HasMonotone(a, b, "verdict:");
    HasMonotone(a, b, "\"pointers\"");
    HasMonotone(a, b, "handoff");
    HasAnyMonotone(a, b, PointerKeys());
    HasAnyMonotone(a, b, GapKeys());
  }

  /** The first line reads the same, trimmed, when the text goes on behind white space holding a line break. */
  lemma SameHead(p: string, w: string, y: string)
    requires p != "" && AllWhite(w) && '\n' in w
    ensures Trim(FirstLine(p + w + y)) == Trim(FirstLine(p))
  {
    hide FindFirst, Trim, IsWhite;
    var n := FindFirst(p, "\n");
    var t := p + (w + y);
    assert t == p + w + y;
    if n.Some? {
      FirstBreakStays(p, w + y, n.value);
      assert t[..n.value] == p[..n.value];
      if n.value > 0 {
        assert t[n.value - 1] == p[n.value - 1];
        assert t[..n.value - 1] == p[..n.value - 1];
      }
    } else {
      var k := FirstBreak(w);
      BreakBehind(p, w, y, k);
      WhitePrefix(w, k);
      assert t[..|p| + k] == p + w[..k];
      TrimOver("", p, w[..k]);
      assert "" + p + w[..k] == p + w[..k];
      if k > 0 {
        WhitePrefix(w, k - 1);
        assert t[..|p| + k - 1] == p + w[..k - 1];
        TrimOver("", p, w[..k - 1]);
        assert "" + p + w[..k - 1] == p + w[..k - 1];
      } else {
        CarriageReturnIsWhite(p, t);
      }
    }
  }

  lemma CarriageReturnIsWhite(p: string, t: string)
    requires p != "" && |t| >= |p| && t[..|p|] == p
    ensures p[|p| - 1] == '\r' ==> Trim(t[..|p| - 1]) == Trim(p)
  {
    hide Trim;
    if p[|p| - 1] == '\r' {
      var q := t[..|p| - 1];
      assert p == "" + q + ['\r'];
      TrimOver("", q, ['\r']);
    }
  }

  lemma WhitePrefix(w: string, k: nat)
    requires AllWhite(w) && k <= |w|
    ensures AllWhite(w[..k]) && AllWhite("")
  {
  }

  lemma FirstBreak(w: string) returns (k: nat)
    requires '\n' in w
    ensures k < |w| && w[k] == '\n' && '\n' !in w[..k]
  {
    k := 0;
    while w[k] != '\n'
      invariant k < |w| && '\n' in w[k..] && '\n' !in w[..k]
      decreases |w| - k
    {
      assert w[k..] == [w[k]] + w[k + 1..];
      assert w[..k + 1] == w[..k] + [w[k]];
      k := k + 1;
    }
  }

  lemma FirstBreakStays(p: string, more: string, n: nat)
    requires FindFirst(p, "\n") == Some(n)
    ensures FindFirst(p + more, "\n") == Some(n) && n < |p|
  {
    hide FindFirst;
    assert OccursAt(p, "\n", n);
    forall j | 0 <= j < n
      ensures !OccursAt(p + more, "\n", j)
    {
      OccursInPrefix(p, more, "\n", j);
      assert !OccursAt(p, "\n", j);
    }
    OccursInPrefix(p, more, "\n", n);
    FindFirstIs(p + more, "\n", n);
  }

  lemma BreakBehind(p: string, w: string, y: string, k: nat)
    requires FindFirst(p, "\n").None? && k < |w| && w[k] == '\n' && '\n' !in w[..k]
    ensures FindFirst(p + (w + y), "\n") == Some(|p| + k)
  {
    hide FindFirst;
    var t := p + (w + y);
    forall j | 0 <= j < |p| + k
      ensures !OccursAt(t, "\n", j)
    {
      if j < |p| {
        OccursInPrefix(p, w + y, "\n", j);
        assert !OccursAt(p, "\n", j);
      } else {
        assert t[j] == w[..k][j - |p|];
        NotAtOtherChar(t, "\n", j);
      }
    }
    assert t[|p| + k..|p| + k + 1] == "\n";
    FindFirstIs(t, "\n", |p| + k);
  }

  lemma BodyMonotone(q: string, w: string, y: string)
    requires q != "" && AllWhite(w) && '\n' in w
    ensures EnvelopeBody(q) ==> EnvelopeBody(q + w + y)
  {
    hide FirstLine, IsHandoffHeading, EnvelopeFields, Lower, AllWhite, Trim;
    SameHead(q, w, y);
    LowerPrefix(q + w, y);
    LowerPrefix(q, w);
    FieldsMonotone(Lower(q), Lower(w), IsHandoffHeading(Trim(FirstLine(q))));
    FieldsMonotone(Lower(q + w), Lower(y), IsHandoffHeading(Trim(FirstLine(q))));
  }

  lemma EnvelopeBehindWhite(a: string, q: string)
    requires AllWhite(a) && q != "" && !IsWhite(q[0])
    ensures LooksLikeEnvelope(a + q) <==> EnvelopeBody(q)
  {
    hide TrimStart, EnvelopeBody, AllWhite, IsWhite;
    TrimStartOver(a, q);
    FrontStays(q, "");
    assert q + "" == q;
  }

  /** An envelope that ends at a line break is still one when more lines follow. */
  lemma EnvelopeMonotone(x: string, y: string)
    requires x != "" && x[|x| - 1] == '\n'
    ensures LooksLikeEnvelope(TrimEnd(x)) ==> LooksLikeEnvelope(x + y)
  {
    hide *;
    if TrimStart(TrimEnd(x)) == "" {
      BlankIsNoEnvelope(TrimEnd(x));
    } else {
      var a, q, w := CoreOf(x);
      BreakIsTrimmed(a + q, w, x);
      EnvelopeBehindWhite(a, q);
      BodyMonotone(q, w, y);
      EnvelopeBehindWhite(a, q + w + y);
      Regroup(a, q, w, y);
    }
  }

  lemma Regroup(a: string, q: string, w: string, y: string)
    ensures a + q + w + y == a + (q + w + y)
  {
  }

  /** A non-blank text as leading white space, core, trailing white space. */
  lemma CoreOf(x: string) returns (a: string, q: string, w: string)
    requires TrimStart(TrimEnd(x)) != ""
    ensures x == a + q + w && TrimEnd(x) == a + q && AllWhite(a) && AllWhite(w)
    ensures q != "" && !IsWhite(q[0]) && !IsWhite((a + q)[|a + q| - 1])
  {
    hide *;
    var p := TrimEnd(x);
    TrimStartParts(p);
    TrimEndParts(x);
    q := TrimStart(p);
    a, w := p[..|p| - |q|], x[|p|..];
  }

  lemma TrimStartParts(s: string)
    ensures var r := TrimStart(s);
            |r| <= |s| && s == s[..|s| - |r|] + r && AllWhite(s[..|s| - |r|]) && (r != "" ==> !IsWhite(r[0]))
  {
    hide TrimStart, IsWhite;
    TrimStartWhite(s);
  }

  lemma TrimEndParts(s: string)
    ensures var r := TrimEnd(s);
            |r| <= |s| && s == r + s[|r|..] && AllWhite(s[|r|..]) && (r != "" ==> !IsWhite(r[|r| - 1]))
  {
    hide TrimEnd, IsWhite;
    TrimEndWhite(s);
  }

  lemma BlankIsNoEnvelope(p: string)
    requires TrimStart(p) == ""
    ensures !LooksLikeEnvelope(p)
  {
  }

  lemma FrontStays(q: string, more: string)
    requires q != "" && !IsWhite(q[0])
    ensures TrimStart(q + more) == q + more
  {
  }

  lemma BreakIsTrimmed(p: string, w: string, x: string)
    requires x == p + w && x != "" && x[|x| - 1] == '\n' && (p != "" ==> !IsWhite(p[|p| - 1]))
    ensures '\n' in w
  {
    assert |w| > 0 ==> w[|w| - 1] == x[|x| - 1];
    assert |w| == 0 ==> x == p;
  }

  // ---------------------------------------------------------------- stripping is idempotent

  /** The kept text: what stands before the suffix, without trailing white space. */
  ghost predicate Kept(text: string, i: nat, out: string)
  {
    i <= |text| && out == TrimEnd(text[..i])
  }

  lemma KeptParts(text: string, i: nat, out: string)
    requires Kept(text, i, out)
    ensures |out| <= i && text[..|out|] == out && AllWhite(text[|out|..i])
  {
    hide TrimEnd, IsWhite;
    TrimEndWhite(text[..i]);
    assert text[..i][..|out|] == text[..|out|];
    assert text[..i][|out|..] == text[|out|..i];
  }

  /** A line of the kept text reads the same, trimmed, as the line of the whole text that begins there. */
  lemma SameLine(text: string, i: nat, out: string, o: nat)
    requires Kept(text, i, out) && o < |out| && IsLineStart(text, i) && 0 < i
    ensures var e, e' := LineEnd(text, o), LineEnd(out, o);
            && e <= i && (e' == e || e' == |out|)
            && Trim(out[o..e']) == Trim(text[o..e])
  {
    hide TrimEnd, LineEnd, Trim, AllWhite, IsWhite, Kept;
    KeptParts(text, i, out);
    var e, e' := LineEnd(text, o), LineEnd(out, o);
    LineEndBefore(text, o, i);
    if e <= |out| {
      SameEnd(text, out, o, e, e');
      assert out[o..e] == text[..|out|][o..e] == text[o..e];
    } else {
      EndsEarly(text, out, o, e, e');
      var w := text[|out|..e];
      assert text[o..e] == out[o..|out|] + w by {
        assert text[o..e] == text[..|out|][o..|out|] + w;
      }
      WhiteSlice(text, |out|, i, e);
      WhitePrefix("", 0);
      TrimOver("", out[o..|out|], w);
      assert "" + out[o..|out|] + w == out[o..|out|] + w;
    }
  }

  lemma WhiteSlice(text: string, a: nat, i: nat, e: nat)
    requires a <= e <= i <= |text| && AllWhite(text[a..i])
    ensures AllWhite(text[a..e]) && AllWhite("")
  {
    assert text[a..e] == text[a..i][..e - a];
  }

  lemma {:induction false} LineEndBefore(text: string, o: nat, i: nat)
    requires o < i <= |text| && text[i - 1] == '\n'
    ensures LineEnd(text, o) <= i
    decreases i - o
  {
    if text[o] != '\n' && o + 1 < |text| {
      LineEndBefore(text, o + 1, i);
    }
  }

  lemma {:induction false} LineEndIs(text: string, o: nat, e: nat)
    requires o < e <= |text| && (e == |text| || text[e - 1] == '\n')
    requires forall k :: o <= k < e - 1 ==> text[k] != '\n'
    ensures LineEnd(text, o) == e
    decreases e - o
  {
    if o + 1 < e {
      LineEndIs(text, o + 1, e);
    }
  }

  lemma SameEnd(text: string, out: string, o: nat, e: nat, e': nat)
    requires o < e <= |out| <= |text| && text[..|out|] == out && o < |out|
    requires e == LineEnd(text, o) && e' == LineEnd(out, o)
    ensures e' == e
  {
    hide LineEnd;
    assert forall k :: 0 <= k < |out| ==> out[k] == text[k];
    LineEndIs(out, o, e);
  }

  lemma EndsEarly(text: string, out: string, o: nat, e: nat, e': nat)
    requires o < |out| < e <= |text| && text[..|out|] == out
    requires e == LineEnd(text, o) && e' == LineEnd(out, o)
    ensures e' == |out|
  {
    hide LineEnd;
    assert forall k :: 0 <= k < |out| ==> out[k] == text[k];
    LineEndIs(out, o, |out|);
  }

  /** If the whole text shows no envelope from `start`, the kept text shows none either. */
  lemma KeptEnvelope(text: string, i: nat, out: string, start: nat)
    requires Kept(text, i, out) && IsLineStart(text, i) && start < |out|
    ensures LooksLikeEnvelope(out[start..]) ==> LooksLikeEnvelope(text[start..])
  {
    hide LooksLikeEnvelope, AllWhite, IsWhite;
    KeptParts(text, i, out);
    var x, y := text[start..i], text[i..];
    assert text[start..] == x + y;
    assert text[..i] == text[..start] + x;
    TrimEndSplit(text[..start], x, out);
    assert text[..start] == out[..start] by {
      assert text[..start] == text[..|out|][..start];
    }
    EnvelopeMonotone(x, y);
  }

  lemma TrimEndSplit(a: string, x: string, out: string)
    requires out == TrimEnd(a + x) && |a| < |out|
    ensures out[|a|..] == TrimEnd(x)
  {
    hide *;
    var t := TrimEnd(x);
    var w := x[|t|..];
    TrimEndParts(x);
    assert a + x == (a + t) + w;
    TrimEndOver(a + t, w);
    assert t == "" ==> a + t == a;
    ShorterTrim(a);
    if t != "" {
      NonWhiteEnd(a, t);
    }
  }

  lemma ShorterTrim(a: string)
    ensures |TrimEnd(a)| <= |a|
  {
  }

  lemma NonWhiteEnd(a: string, t: string)
    requires t != "" && !IsWhite(t[|t| - 1])
    ensures TrimEnd(a + t) == a + t && (a + t)[|a|..] == t
  {
  }

  /** Before the suffix the scan never triggered, so on the kept text it runs through without a hit. */
  lemma {:induction false} NothingLeft(text: string, i: nat, out: string, o: nat, r: Option<nat>)
    requires Kept(text, i, out) && IsLineStart(text, i) && 0 < i
    requires o <= |out| && (r.Some? ==> r.value < o)
    requires ScanFrom(text, o, r) == Some(i)
    ensures ScanFrom(out, o, r) == None
    decreases |out| - o
  {
    hide TrimEnd, Kept, LineEnd, Trim, LooksLikeEnvelope, IsHandoffHeading, IsVerdictFieldLine, IsLineStart;
    KeptParts(text, i, out);
    if o < |out| {
      SameLine(text, i, out, o);
      var e, e' := LineEnd(text, o), LineEnd(out, o);
      var line, line' := text[o..e], out[o..e'];
      if IsRule(line) {
        if e' == e {
          NothingLeft(text, i, out, e, Some(o));
        }
      } else {
        var start := if r.Some? then r.value else o;
        KeptEnvelope(text, i, out, start);
        assert !Opens(text, line, start);
        if e' == e {
          NothingLeft(text, i, out, e, None);
        }
      }
    }
  }

  /** Once something has been dropped, no suffix start remains; so stripping twice is stripping once, for every text. */
  lemma StripIdempotent(text: string)
    ensures SuffixStart(text).Some? && SuffixStart(text).value > 0 ==> SuffixStart(StripSuffix(text)) == None
    ensures StripSuffix(StripSuffix(text)) == StripSuffix(text)
  {
    if SuffixStart(text).Some? && SuffixStart(text).value > 0 {
      StartInText(text, 0, None);
      hide ScanFrom;
      NothingLeft(text, SuffixStart(text).value, StripSuffix(text), 0, None);
    }
  }
}
