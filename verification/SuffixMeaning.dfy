/** Where an internodal footer starts and what stripping it keeps, said over the lines of the text. */
module SuffixMeaning {
  import opened Wrappers
  import opened Text
  import opened InternodalSuffix

  // ---------------------------------------------------------------- lines

  /** The line from `r` to `o` consists of three dashes. */
  predicate RuleLine(text: string, r: nat, o: nat)
  {
    IsLine(text, r, o) && Trim(text[r..o]) == "---"
  }

  /** `start` is the rule directly in front of the line at `o`, or that line itself where there is none. */
  ghost predicate StartsAt(text: string, o: nat, start: nat)
  {
    if exists r: nat :: RuleLine(text, r, o) then RuleLine(text, start, o) else start == o
  }

  /** The line from `o` to `e` opens a footer that starts at `start`. */
  ghost predicate OpensAt(text: string, o: nat, e: nat, start: nat)
  {
    && IsLine(text, o, e) && !RuleLine(text, o, e) && StartsAt(text, o, start) && start <= |text|
    && (IsHandoffHeading(Trim(text[o..e])) || (IsVerdictFieldLine(Trim(text[o..e])) && LooksLikeEnvelope(text[start..])))
  }

  lemma LineAt(text: string, o: nat)
    requires o < |text| && IsLineStart(text, o)
    ensures IsLine(text, o, LineEnd(text, o))
    ensures LineEnd(text, o) < |text| ==> IsLineStart(text, LineEnd(text, o))
  {
    hide LineEnd;
  }

  lemma RuleInFront(text: string, o: nat, r: nat, s: nat)
    requires RuleLine(text, r, o) && RuleLine(text, s, o)
    ensures r == s
  {
    hide Trim;
    if r <= s {
      LinesApart(text, r, o, s, o);
    } else {
      LinesApart(text, s, o, r, o);
    }
  }

  /** The rule in front of `offset`, as the scan remembers it. */
  ghost predicate Remembers(text: string, offset: nat, afterRule: Option<nat>)
  {
    if afterRule.Some? then RuleLine(text, afterRule.value, offset) else forall r: nat :: !RuleLine(text, r, offset)
  }

  lemma RemembersStart(text: string, offset: nat, afterRule: Option<nat>, start: nat)
    requires Remembers(text, offset, afterRule)
    ensures StartsAt(text, offset, start) <==> start == if afterRule.Some? then afterRule.value else offset
  {
    hide RuleLine;
    if afterRule.Some? && RuleLine(text, start, offset) {
      RuleInFront(text, offset, afterRule.value, start);
    }
  }

  lemma RemembersNext(text: string, o: nat, e: nat)
    requires IsLine(text, o, e)
    ensures Remembers(text, e, if RuleLine(text, o, e) then Some(o) else None)
  {
    hide Trim;
    forall r: nat | RuleLine(text, r, e)
      ensures r == o
    {
      if o <= r {
        LinesApart(text, o, e, r, e);
      } else {
        LinesApart(text, r, e, o, e);
      }
    }
  }

  /** The first opening line from `offset` on, with its start. */
  ghost predicate FirstOpening(text: string, offset: nat, start: nat)
  {
    exists o: nat, e: nat :: offset <= o && OpensAt(text, o, e, start)
                   && forall p: nat, q: nat, s: nat :: offset <= p < o ==> !OpensAt(text, p, q, s)
  }

  ghost predicate NoOpening(text: string, offset: nat)
  {
    forall p: nat, q: nat, s: nat :: offset <= p ==> !OpensAt(text, p, q, s)
  }

  lemma OpensHere(text: string, o: nat, e: nat, afterRule: Option<nat>)
    requires IsLine(text, o, e) && Remembers(text, o, afterRule) && (afterRule.Some? ==> afterRule.value < o)
    ensures var start := if afterRule.Some? then afterRule.value else o;
            forall p: nat, q: nat, s: nat :: o <= p < e ==>
              (OpensAt(text, p, q, s)
               <==> p == o && q == e && s == start && Trim(text[o..e]) != "---" && Opens(text, text[o..e], start))
  {
    hide Trim, IsHandoffHeading, IsVerdictFieldLine, LooksLikeEnvelope, StartsAt, Remembers, IsLine;
    forall p: nat, q: nat | o <= p < e && IsLine(text, p, q)
      ensures p == o && q == e
    {
      LinesApart(text, o, e, p, q);
    }
    forall s: nat
      ensures StartsAt(text, o, s) <==> s == if afterRule.Some? then afterRule.value else o
    {
      RemembersStart(text, o, afterRule, s);
    }
    LineInText(text, o, e);
  }

  lemma LineInText(text: string, o: nat, e: nat)
    requires IsLine(text, o, e)
    ensures o < e <= |text|
  {
  }

  lemma {:induction false} ScanExact(text: string, offset: nat, afterRule: Option<nat>)
    requires offset <= |text| && (offset < |text| ==> IsLineStart(text, offset))
    requires (afterRule.Some? ==> afterRule.value < offset) && Remembers(text, offset, afterRule)
    ensures var r := ScanFrom(text, offset, afterRule);
            (r.Some? ==> FirstOpening(text, offset, r.value)) && (r.None? ==> NoOpening(text, offset))
    decreases |text| - offset
  {
    hide Opens, OpensAt, Remembers, Trim, LineEnd, IsLine, IsLineStart;
    if offset == |text| {
      NothingAtEnd(text);
    } else {
      var end := LineEnd(text, offset);
      LineAt(text, offset);
      OpensHere(text, offset, end, afterRule);
      RemembersNext(text, offset, end);
      var line := text[offset..end];
      var start := if afterRule.Some? then afterRule.value else offset;
      if IsRule(line) {
        ScanExact(text, end, Some(offset));
        OpensFurther(text, offset, end);
      } else if Opens(text, line, start) {
        assert OpensAt(text, offset, end, start);
      } else {
        ScanExact(text, end, None);
        OpensFurther(text, offset, end);
      }
    }
  }

  lemma NothingAtEnd(text: string)
    ensures NoOpening(text, |text|)
  {
    hide IsHandoffHeading, IsVerdictFieldLine, LooksLikeEnvelope, Trim, StartsAt;
  }

  lemma OpensFurther(text: string, offset: nat, end: nat)
    requires offset <= end && forall p: nat, q: nat, s: nat :: offset <= p < end ==> !OpensAt(text, p, q, s)
    ensures forall start: nat :: FirstOpening(text, end, start) ==> FirstOpening(text, offset, start)
    ensures NoOpening(text, end) ==> NoOpening(text, offset)
  {
    hide OpensAt;
    forall start: nat | FirstOpening(text, end, start)
      ensures FirstOpening(text, offset, start)
    {
      var o: nat, e: nat :| end <= o && OpensAt(text, o, e, start) && forall p: nat, q: nat, s: nat :: end <= p < o ==> !OpensAt(text, p, q, s);
      assert forall p: nat, q: nat, s: nat :: offset <= p < o ==> !OpensAt(text, p, q, s);
    }
  }

  lemma {:induction false} FirstIsOne(text: string, s: nat, t: nat)
    requires FirstOpening(text, 0, s) && FirstOpening(text, 0, t)
    ensures s == t
  {
    hide IsHandoffHeading, IsVerdictFieldLine, LooksLikeEnvelope, Trim, StartsAt;
    var o: nat, e: nat :| OpensAt(text, o, e, s) && forall p: nat, q: nat, u: nat :: 0 <= p < o ==> !OpensAt(text, p, q, u);
    var p: nat, q: nat :| OpensAt(text, p, q, t) && forall k: nat, l: nat, u: nat :: 0 <= k < p ==> !OpensAt(text, k, l, u);
    assert o == p;
    StartIsOne(text, o, s, t);
  }

  lemma StartIsOne(text: string, o: nat, s: nat, t: nat)
    requires StartsAt(text, o, s) && StartsAt(text, o, t)
    ensures s == t
  {
    hide RuleLine;
    if exists r: nat :: RuleLine(text, r, o) {
      RuleInFront(text, o, s, t);
    }
  }

  /** The footer starts at the first line that opens one, or at the rule directly in front of it; if no line does, nowhere. */
  lemma StartExactly(text: string)
    ensures forall start: nat :: SuffixStart(text) == Some(start) <==> FirstOpening(text, 0, start)
    ensures SuffixStart(text) == None <==> NoOpening(text, 0)
  {
    hide ScanFrom, OpensAt;
    NoRuleAtFront(text);
    ScanExact(text, 0, None);
    forall start: nat | FirstOpening(text, 0, start)
      ensures SuffixStart(text) == Some(start)
    {
      if SuffixStart(text).Some? {
        FirstIsOne(text, start, SuffixStart(text).value);
      }
    }
  }

  lemma NoRuleAtFront(text: string)
    ensures Remembers(text, 0, None)
  {
    hide Trim;
  }

  // ---------------------------------------------------------------- what is kept

  /** Where a footer starts behind something, the text before it is kept without the white space in front of the footer. */
  lemma StripKeeps(text: string, i: nat) returns (w: string)
    requires SuffixStart(text) == Some(i) && i > 0
    ensures i < |text| && AllWhite(w) && text[..i] == StripSuffix(text) + w
    ensures var r := StripSuffix(text); r != "" ==> !IsWhite(r[|r| - 1])
  {
    hide ScanFrom, TrimEnd, IsWhite;
    StartInText(text, 0, None);
    TrimEndParts(text[..i]);
    w := text[..i][|TrimEnd(text[..i])|..];
  }

  /** Without a footer, and where the footer is the whole text, the text is kept as it is. */
  lemma StripLeaves(text: string)
    requires SuffixStart(text).None? || SuffixStart(text) == Some(0)
    ensures StripSuffix(text) == text
  {
    hide ScanFrom;
  }

  // ---------------------------------------------------------------- the key of a line

  predicate AllIn(s: string, chars: set<char>)
  {
    forall i :: 0 <= i < |s| ==> s[i] in chars
  }

  lemma {:induction false} DropFrontOver(d: string, s: string, chars: set<char>)
    requires AllIn(d, chars) && (s != "" ==> s[0] !in chars)
    ensures DropFront(d + s, chars) == s
  {
    if d == "" {
      assert d + s == s;
    } else {
      assert (d + s)[1..] == d[1..] + s;
      DropFrontOver(d[1..], s, chars);
    }
  }

  lemma {:induction false} DropBackOver(s: string, d: string, chars: set<char>)
    requires AllIn(d, chars) && (s != "" ==> s[|s| - 1] !in chars)
    ensures DropBack(s + d, chars) == s
    decreases |d|
  {
    if d == "" {
      assert s + d == s;
    } else {
      var n := |d| - 1;
      assert (s + d)[..|s + d| - 1] == s + d[..n] && (s + d)[|s + d| - 1] == d[n];
      DropBackOver(s, d[..n], chars);
    }
  }

  lemma {:induction false} DropFrontParts(s: string, chars: set<char>) returns (d: string)
    ensures s == d + DropFront(s, chars) && AllIn(d, chars)
    ensures var r := DropFront(s, chars); r != "" ==> r[0] !in chars
  {
    if s != "" && s[0] in chars {
      var rest := DropFrontParts(s[1..], chars);
      d := [s[0]] + rest;
      assert s == [s[0]] + s[1..];
    } else {
      d := "";
    }
  }

  lemma {:induction false} DropBackParts(s: string, chars: set<char>) returns (d: string)
    ensures s == DropBack(s, chars) + d && AllIn(d, chars)
    ensures var r := DropBack(s, chars); r != "" ==> r[|r| - 1] !in chars
    decreases |s|
  {
    if s != "" && s[|s| - 1] in chars {
      var n := |s| - 1;
      var rest := DropBackParts(s[..n], chars);
      d := rest + [s[n]];
      assert s == s[..n] + [s[n]];
    } else {
      d := "";
    }
  }

  /** White space and marks of a heading, a list or emphasis. */
  predicate Decoration(s: string)
  {
    forall i :: 0 <= i < |s| ==> IsWhite(s[i]) || s[i] == '#' || s[i] == '-' || s[i] == '*'
  }

  /** `k` is a part of the line with nothing but decoration around it. */
  ghost predicate Inside(line: string, k: string)
  {
    exists p, q :: line == p + k + q && Decoration(p) && Decoration(q)
  }

  lemma InsideOf(line: string, a: string, k: string, b: string)
    requires Inside(line, a + k + b) && Decoration(a) && Decoration(b)
    ensures Inside(line, k)
  {
    hide Decoration;
    var p, q :| line == p + (a + k + b) + q && Decoration(p) && Decoration(q);
    Decorations(p, a);
    Decorations(b, q);
    Regrouped(p, a, k, b, q);
  }

  lemma Decorations(a: string, b: string)
    requires Decoration(a) && Decoration(b)
    ensures Decoration(a + b)
  {
    hide IsWhite;
  }

  lemma Regrouped(p: string, a: string, k: string, b: string, q: string)
    ensures p + (a + k + b) + q == (p + a) + k + (b + q)
  {
  }

  lemma InsideTrim(line: string, k: string)
    requires Inside(line, k)
    ensures Inside(line, Trim(k))
  {
    hide Trim, IsWhite, Inside;
    var a, b := TrimParts(k);
    InsideOf(line, a, Trim(k), b);
  }

  lemma InsideFront(line: string, k: string, marks: set<char>)
    requires Inside(line, k) && marks <= {'#', '-', '*'}
    ensures Inside(line, DropFront(k, marks))
  {
    hide DropFront, IsWhite, Inside;
    var a := DropFrontParts(k, marks);
    assert a + DropFront(k, marks) + "" == k;
    InsideOf(line, a, DropFront(k, marks), "");
  }

  lemma InsideBack(line: string, k: string, marks: set<char>)
    requires Inside(line, k) && marks <= {'#', '-', '*'}
    ensures Inside(line, DropBack(k, marks))
  {
    hide DropBack, IsWhite, Inside;
    var b := DropBackParts(k, marks);
    assert "" + DropBack(k, marks) + b == k;
    InsideOf(line, "", DropBack(k, marks), b);
  }

  lemma WholeInside(line: string)
    ensures Inside(line, line)
  {
    assert line == "" + line + "" && Decoration("");
  }

  /** The key is some part of the line in lower case, with nothing but white space and marks around it. */
  lemma KeyInLine(line: string)
    ensures exists k :: Inside(line, k) && LineKey(line) == Lower(k)
  {
    hide Trim, DropFront, DropBack, Inside, Lower;
    WholeInside(line);
    InsideTrim(line, line);
    InsideFront(line, Trim(line), {'#'});
    InsideTrim(line, DropFront(Trim(line), {'#'}));
    var t := Trim(DropFront(Trim(line), {'#'}));
    InsideFront(line, t, {'-', '*'});
    InsideTrim(line, DropFront(t, {'-', '*'}));
    var u := Trim(DropFront(t, {'-', '*'}));
    InsideFront(line, u, {'*'});
    InsideBack(line, DropFront(u, {'*'}), {'*'});
    InsideTrim(line, DropBack(DropFront(u, {'*'}), {'*'}));
  }

  lemma NoDecoration()
    ensures Decoration("") && AllWhite("")
  {
  }

  /** A text that is trimmed and shows no mark at its ends is the key of every line made of it, with or without a heading mark. */
  lemma KeyOfText(a: string, hashes: string, b: string, k: string, c: string)
    requires AllWhite(a) && AllIn(hashes, {'#'}) && AllWhite(b) && AllWhite(c)
    requires Trimmed(k) && k != "" && k[0] !in {'#', '-', '*'} && k[|k| - 1] != '*'
    ensures LineKey(a + hashes + b + k + c) == Lower(k)
  {
    hide Trim, DropFront, DropBack, AllWhite, IsWhite;
    var line := a + hashes + b + k + c;
    NoDecoration();
    var m := if hashes == "" then k else hashes + b + k;
    if hashes == "" {
      WhiteJoin(a, b);
      assert line == (a + b) + k + c;
      TrimUnique(a + b, k, c);
    } else {
      assert line == a + m + c;
      MarkIsTrimmed(hashes, b, k);
      TrimUnique(a, m, c);
    }
    assert Trim(line) == m;
    if hashes == "" {
      DropFrontOver("", k, {'#'});
      assert "" + k == k;
      TrimUnique("", k, "");
      assert "" + k + "" == k;
    } else {
      WhiteFirst(b, k);
      assert m == hashes + (b + k);
      DropFrontOver(hashes, b + k, {'#'});
      TrimUnique(b, k, "");
      assert b + k + "" == b + k;
    }
    assert Trim(DropFront(m, {'#'})) == k;
    DropFrontOver("", k, {'-', '*'});
    DropFrontOver("", k, {'*'});
    DropBackOver(k, "", {'*'});
    assert "" + k == k && k + "" == k && "" + k + "" == k;
    TrimUnique("", k, "");
  }

  lemma WhiteJoin(a: string, b: string)
    requires AllWhite(a) && AllWhite(b)
    ensures AllWhite(a + b)
  {
    hide IsWhite;
  }

  lemma MarkIsTrimmed(hashes: string, b: string, k: string)
    requires hashes != "" && AllIn(hashes, {'#'}) && Trimmed(k) && k != ""
    ensures Trimmed(hashes + b + k)
  {
    var m := hashes + b + k;
    assert m[0] == hashes[0] && m[|m| - 1] == k[|k| - 1];
  }

  lemma WhiteFirst(b: string, k: string)
    requires AllWhite(b) && k != "" && k[0] != '#'
    ensures (b + k)[0] !in {'#'}
  {
    assert b != "" ==> IsWhite(b[0]);
  }

  /** A handoff heading is a line whose key is the word, maybe with colons behind it. */
  lemma HandoffMeans(line: string)
    ensures IsHandoffHeading(line)
            <==> exists w, colons :: LineKey(line) == w + colons && AllIn(colons, {':'}) && Trim(w) == "handoff"
                                    && (w != "" ==> w[|w| - 1] != ':')
  {
    hide LineKey, Trim, DropBack, AllIn;
    var key := LineKey(line);
    if IsHandoffHeading(line) {
      var colons := DropBackParts(key, {':'});
      var w := DropBack(key, {':'});
      assert key == w + colons;
    }
    if w, colons :| key == w + colons && AllIn(colons, {':'}) && Trim(w) == "handoff" && (w != "" ==> w[|w| - 1] != ':') {
      DropBackOver(w, colons, {':'});
    }
  }

  /** So the plain word in any case, as a heading of any level or none, with or without a colon, is one. */
  lemma HandoffIsSeen(a: string, hashes: string, b: string, word: string, colon: bool, c: string)
    requires AllWhite(a) && AllIn(hashes, {'#'}) && AllWhite(b) && AllWhite(c) && Lower(word) == "handoff"
    ensures IsHandoffHeading(a + hashes + b + (if colon then word + ":" else word) + c)
  {
    hide *;
    var k := if colon then word + ":" else word;
    WordEnds(word);
    KeyOfText(a, hashes, b, k, c);
    LowerPrefix(word, ":");
    ColonStays();
    var colons := if colon then ":" else "";
    assert Lower(k) == "handoff" + colons;
    WordIsHeading(a + hashes + b + k + c, colons);
  }

  lemma WordIsHeading(line: string, colons: string)
    requires LineKey(line) == "handoff" + colons && AllIn(colons, {':'})
    ensures IsHandoffHeading(line)
  {
    hide LineKey, Trim, DropBack, AllIn;
    DropBackOver("handoff", colons, {':'});
    WordIsTrimmed();
  }

  lemma WordIsTrimmed()
    ensures Trim("handoff") == "handoff"
  {
    hide TrimEnd, TrimStart;
    NothingToTrim("handoff");
  }

  lemma ColonStays()
    ensures Lower(":") == ":" && AllIn(":", {':'}) && AllIn("", {':'})
  {
    assert Lower(":")[0] == ':';
  }

  lemma WordEnds(word: string)
    requires Lower(word) == "handoff"
    ensures word != "" && Trimmed(word) && word[0] !in {'#', '-', '*'} && word[|word| - 1] != '*'
    ensures Trimmed(word + ":") && (word + ":")[0] == word[0] && (word + ":")[|word + ":"| - 1] == ':'
  {
    assert |word| == 7;
    assert Lower(word)[0] == LowerChar(word[0]) && Lower(word)[6] == LowerChar(word[6]);
  }

  /** A verdict field is a line whose key is the word, alone or with a colon directly behind it. */
  lemma VerdictMeans(line: string)
    ensures IsVerdictFieldLine(line) <==> LineKey(line) == "verdict" || exists more :: LineKey(line) == "verdict:" + more
  {
    hide LineKey;
    var key := LineKey(line);
    if "verdict:" <= key {
      assert key == "verdict:" + key[|"verdict:"|..];
    }
    if key == "verdict:" {
      assert key == "verdict:" + "";
    }
  }

  // ---------------------------------------------------------------- envelopes

  /** The text names its pointers, or its gaps, at the beginning of a line behind the first. */
  ghost predicate NamesField(text: string, field: string)
  {
    Contains(text, "\n" + field + ":") || Contains(text, "\n## " + field) || Contains(text, "\n" + field + "\n")
    || Contains(text, "\n- " + field + ":")
  }

  /** An envelope opens with a handoff heading, or names verdict, pointers and gaps, or quotes pointers beside verdict or handoff. */
  lemma EnvelopeMeans(text: string)
    ensures var t := TrimStart(text);
            var l := Lower(t);
            LooksLikeEnvelope(text)
            <==> t != "" &&
                 (|| IsHandoffHeading(Trim(FirstLine(t)))
                  || (Contains(l, "verdict:") && NamesField(l, "pointers") && NamesField(l, "gaps"))
                  || (Contains(l, "\"pointers\"") && (Contains(l, "verdict:") || Contains(l, "handoff"))))
  {
    hide TrimStart, IsHandoffHeading, FirstLine, FindFirst, Lower, Trim, OccursAt;
    var l := Lower(TrimStart(text));
    assert "\n" + "pointers" + ":" == "\npointers:" && "\n## " + "pointers" == "\n## pointers"
           && "\n" + "pointers" + "\n" == "\npointers\n" && "\n- " + "pointers" + ":" == "\n- pointers:";
    assert "\n" + "gaps" + ":" == "\ngaps:" && "\n## " + "gaps" == "\n## gaps"
           && "\n" + "gaps" + "\n" == "\ngaps\n" && "\n- " + "gaps" + ":" == "\n- gaps:";
    HasMeans(l, "verdict:");
    HasMeans(l, "\"pointers\"");
    HasMeans(l, "handoff");
    HasOneOf(l, PointerKeys());
    HasOneOf(l, GapKeys());
  }

  lemma HasMeans(s: string, p: string)
    ensures Has(s, p) <==> Contains(s, p)
  {
    hide FindFirst, OccursAt;
  }

  lemma HasOneOf(s: string, ps: seq<string>)
    requires |ps| == 4
    ensures HasAny(s, ps) <==> Contains(s, ps[0]) || Contains(s, ps[1]) || Contains(s, ps[2]) || Contains(s, ps[3])
  {
    hide Has, Contains;
    HasMeans(s, ps[0]);
    HasMeans(s, ps[1]);
    HasMeans(s, ps[2]);
    HasMeans(s, ps[3]);
  }

  /** The first line of a text, up to its line feed and without a carriage return in front of that. */
  lemma FirstLineMeans(s: string)
    ensures var l := FirstLine(s);
            && '\n' !in l && l <= s
            && (|l| == |s| || s[|l|] == '\n' || (s[|l|] == '\r' && |l| + 1 < |s| && s[|l| + 1] == '\n'))
            && (l != "" && |l| < |s| && s[|l|] == '\n' ==> l[|l| - 1] != '\r')
  {
    hide FindFirst;
    var n := FindFirst(s, "\n");
    BreaksAre(s);
    if n.None? {
      assert '\n' !in s;
    } else {
      assert s[n.value] == '\n' && forall i :: 0 <= i < n.value ==> s[i] != '\n';
    }
  }
}
