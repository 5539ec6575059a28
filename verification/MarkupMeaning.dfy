/** Tool-call tags and what ends an element, said over positions in the text. */
module MarkupMeaning {
  import opened Wrappers
  import opened Text
  import opened ToolMarkup

  /** The tags in letters; the one that closes `<name>` is `</name>`. */
  lemma TagPairs(name: string)
    ensures OpenTags() == ["<function_calls>", "<function_call>", "<tool_call>", "<toolcall>", "<tool-call>",
                           "<tool_request>", "<tool>", "<invoke>", "<$call>"]
    ensures CloseTag("<" + name + ">") == "</" + name + ">"
  {
    assert ("<" + name + ">")[1..] == name + ">";
    assert "</" + (name + ">") == "</" + name + ">";
  }

  /** A JSON value begins at `j` and `n` characters of it are read. */
  predicate ValueAt(s: string, j: nat, n: nat, read: string -> Option<nat>)
  {
    j < |s| && (s[j] == '{' || s[j] == '[') && n > 0 && read(s[j..]) == Some(n)
  }

  ghost predicate NoValueBefore(s: string, k: nat, read: string -> Option<nat>)
  {
    forall j: nat, n: nat :: j < k ==> !ValueAt(s, j, n, read)
  }

  /** White space and closing tags. */
  predicate Skipped(d: string)
    decreases |d|
  {
    d == "" || (IsWhite(d[0]) && Skipped(d[1..])) || ("</" <= d && TagEnd(d) < |d| && Skipped(d[TagEnd(d) + 1..]))
  }

  /** The first closing bracket. */
  function TagEnd(d: string): (i: nat)
    ensures i <= |d| && '>' !in d[..i] && (i < |d| ==> d[i] == '>')
  {
    if d == "" || d[0] == '>' then 0
    else
      var i := TagEnd(d[1..]) + 1;
      assert d[..i] == [d[0]] + d[1..][..i - 1];
      i
  }

  /** `rest` is `s` without the white space and the closing tags at its front, or nothing when such a tag does not end. */
  ghost predicate WithoutTags(s: string, rest: string)
  {
    && (rest != "" ==> !IsWhite(rest[0]) && !("</" <= rest))
    && exists k: nat :: k <= |s| && Skipped(s[..k])
         && (rest == s[k..] || (rest == "" && "</" <= s[k..] && '>' !in s[k..]))
  }

  /** What is left behind an element, by its closing tag where there is one and else by the JSON value in it. */
  ghost predicate EndsWith(tag: string, after: string, read: string -> Option<nat>, rest: string)
    requires |tag| >= 2
  {
    if Contains(after, CloseTag(tag)) then
      exists i: nat :: OccursAt(after, CloseTag(tag), i) && (forall j :: 0 <= j < i ==> !OccursAt(after, CloseTag(tag), j))
                       && rest == after[i + |CloseTag(tag)|..]
    else
      exists j: nat, n: nat :: ValueAt(after, j, n, read) && NoValueBefore(after, j, read)
                               && j + n <= |after| && WithoutTags(after[j + n..], rest)
  }

  lemma {:induction false} JsonEndMeans(s: string, i: nat, read: string -> Option<nat>)
    requires i <= |s| && InBounds(read) && NoValueBefore(s, i, read)
    ensures var r := JsonEndFrom(s, i, read);
            && (r.None? ==> NoValueBefore(s, |s|, read))
            && (r.Some? ==> exists j: nat, n: nat :: ValueAt(s, j, n, read) && NoValueBefore(s, j, read) && r.value == j + n)
    decreases |s| - i
  {
    if i < |s| {
      var n := if s[i] == '{' || s[i] == '[' then read(s[i..]) else None;
      if n.Some? && n.value > 0 {
        assert ValueAt(s, i, n.value, read);
      } else {
        forall j: nat, m: nat | j < i + 1
          ensures !ValueAt(s, j, m, read)
        {
        }
        JsonEndMeans(s, i + 1, read);
      }
    }
  }

  lemma ValueBehind(w: string, s: string, j: nat, n: nat, read: string -> Option<nat>)
    requires AllWhite(w)
    ensures ValueAt(w + s, |w| + j, n, read) <==> ValueAt(s, j, n, read)
    ensures j < |w| ==> !ValueAt(w + s, j, n, read)
  {
    BracketsAreInk();
    hide IsWhite;
    if j < |s| {
      assert (w + s)[|w| + j..] == s[j..];
    }
  }

  lemma BracketsAreInk()
    ensures !IsWhite('{') && !IsWhite('[')
  {
  }

  /** The first JSON value of the text, at whatever bracket it begins; white space in front plays no part. */
  lemma FirstJsonMeans(input: string, read: string -> Option<nat>)
    requires InBounds(read)
    ensures var r := FirstJsonEnd(input, read);
            && (r.None? ==> NoValueBefore(input, |input|, read))
            && (r.Some? ==> exists j: nat, n: nat :: ValueAt(input, j, n, read) && NoValueBefore(input, j, read) && r.value == j + n)
  {
    hide JsonEndFrom, ValueAt, TrimStart, AllWhite, InBounds;
    var t := TrimStart(input);
    var w := input[..|input| - |t|];
    Front(input, t, w);
    JsonEndMeans(t, 0, read);
    forall j: nat, n: nat
      ensures (ValueAt(input, |w| + j, n, read) <==> ValueAt(t, j, n, read)) && (j < |w| ==> !ValueAt(input, j, n, read))
    {
      ValueBehind(w, t, j, n, read);
    }
    forall k: nat | NoValueBefore(t, k, read)
      ensures NoValueBefore(input, |w| + k, read)
    {
      forall j: nat, n: nat | j < |w| + k
        ensures !ValueAt(input, j, n, read)
      {
        if j >= |w| {
          assert !ValueAt(t, j - |w|, n, read);
          assert ValueAt(input, |w| + (j - |w|), n, read) <==> ValueAt(t, j - |w|, n, read);
        }
      }
    }
    var r := JsonEndFrom(t, 0, read);
    if r.Some? {
      var j: nat, n: nat :| ValueAt(t, j, n, read) && NoValueBefore(t, j, read) && r.value == j + n;
      assert ValueAt(input, |w| + j, n, read) && NoValueBefore(input, |w| + j, read);
    } else {
      assert |input| == |w| + |t|;
    }
  }

  lemma Front(input: string, t: string, w: string)
    requires t == TrimStart(input) && w == input[..|input| - |t|]
    ensures input == w + t && AllWhite(w)
  {
    hide TrimStart, IsWhite;
    TrimStartWhite(input);
  }

  lemma {:induction false} SkippedWhite(w: string, d: string)
    requires AllWhite(w) && Skipped(d)
    ensures Skipped(w + d)
  {
    hide IsWhite;
    if w == "" {
      assert w + d == d;
    } else {
      SkippedWhite(w[1..], d);
      assert (w + d)[1..] == w[1..] + d && (w + d)[0] == w[0];
    }
  }

  lemma TagEndIs(d: string, i: nat)
    requires i < |d| && d[i] == '>' && '>' !in d[..i]
    ensures TagEnd(d) == i
  {
    hide TagEnd;
    var k := TagEnd(d);
    EarlierBracket(d, i, k);
    EarlierBracket(d, k, i);
  }

  lemma EarlierBracket(d: string, i: nat, k: nat)
    requires i <= |d| && '>' !in d[..i]
    ensures k < |d| && d[k] == '>' ==> i <= k
  {
    if k < i {
      assert d[..i][k] == d[k];
    }
  }

  lemma SkippedTag(t: string, k: nat)
    requires "</" <= t && TagEnd(t) < |t| && TagEnd(t) + 1 + k <= |t| && Skipped(t[TagEnd(t) + 1..][..k])
    ensures Skipped(t[..TagEnd(t) + 1 + k])
  {
    hide Skipped, TagEnd, IsWhite;
    var i := TagEnd(t);
    var d := t[..i + 1 + k];
    assert t[0] == '<' && t[1] == '/';
    assert i > 1;
    assert d[..i] == t[..i] && d[i] == t[i];
    TagEndIs(d, i);
    assert d[i + 1..] == t[i + 1..][..k];
    assert d[..2] == "</";
    SkippedStep(d);
  }

  lemma SkippedStep(d: string)
    requires "</" <= d && TagEnd(d) < |d| && Skipped(d[TagEnd(d) + 1..])
    ensures Skipped(d)
  {
  }

  lemma NothingSkipped()
    ensures Skipped("")
  {
  }

  lemma FirstBracket(s: string)
    ensures FindFirst(s, ">") == if TagEnd(s) < |s| then Some(TagEnd(s)) else None
  {
    hide FindFirst, TagEnd;
    var i := TagEnd(s);
    forall j | 0 <= j < i
      ensures !OccursAt(s, ">", j)
    {
      assert s[..i][j] == s[j];
      NotAtOtherChar(s, ">", j);
    }
    if i < |s| {
      assert s[i..i + 1] == ">";
      FindFirstIs(s, ">", i);
    } else {
      forall j
        ensures !OccursAt(s, ">", j)
      {
        if 0 <= j < i {
          assert s[..i][j] == s[j];
        }
        NotAtOtherChar(s, ">", j);
      }
      FindFirstNone(s, ">");
    }
  }

  lemma {:induction false} DropCloseTagsMeans(s: string)
    ensures WithoutTags(s, DropCloseTags(s))
    decreases |s|
  {
    hide *;
    var t := TrimStart(s);
    DropStep(s, t);
    FirstBracket(t);
    if !("</" <= t) {
      NoTagLeft(s, t);
    } else if TagEnd(t) == |t| {
      TagUnended(s, t);
    } else {
      var rest := t[TagEnd(t) + 1..];
      DropCloseTagsMeans(rest);
      TagPassed(s, t, DropCloseTags(rest));
    }
  }

  lemma WhiteInFront(s: string, t: string)
    requires t == TrimStart(s)
    ensures |t| <= |s| && Skipped(s[..|s| - |t|]) && s[|s| - |t|..] == t && (t != "" ==> !IsWhite(t[0]))
  {
    hide *;
    var w := s[..|s| - |t|];
    Front(s, t, w);
    InkFirst(s, t);
    NothingSkipped();
    SkippedWhite(w, "");
    assert w + "" == w;
  }

  lemma NoTagLeft(s: string, t: string)
    requires t == TrimStart(s) && !("</" <= t)
    ensures WithoutTags(s, t)
  {
    hide *;
    WhiteInFront(s, t);
    LeftAt(s, |s| - |t|, t);
  }

  lemma TagUnended(s: string, t: string)
    requires t == TrimStart(s) && "</" <= t && TagEnd(t) == |t|
    ensures WithoutTags(s, "")
  {
    hide *;
    WhiteInFront(s, t);
    assert t[..|t|] == t;
    Cut(s, |s| - |t|);
  }

  lemma TagPassed(s: string, t: string, out: string)
    requires t == TrimStart(s) && "</" <= t && TagEnd(t) < |t| && WithoutTags(t[TagEnd(t) + 1..], out)
    ensures WithoutTags(s, out)
  {
    hide *;
    var rest := t[TagEnd(t) + 1..];
    var w := s[..|s| - |t|];
    Front(s, t, w);
    var k := SkippedSome(rest, out);
    SkippedTag(t, k);
    var m := TagEnd(t) + 1 + k;
    SkippedWhite(w, t[..m]);
    SplitAt(s, w, t, m);
    assert t[m..] == rest[k..];
    Combined(s, |w| + m, out, rest, k);
  }

  lemma SplitAt(s: string, w: string, t: string, m: nat)
    requires s == w + t && m <= |t|
    ensures s[..|w| + m] == w + t[..m] && s[|w| + m..] == t[m..]
  {
  }

  lemma DropStep(s: string, t: string)
    requires t == TrimStart(s)
    ensures |t| <= |s|
    ensures !("</" <= t) ==> DropCloseTags(s) == t
    ensures "</" <= t && FindFirst(t, ">").None? ==> DropCloseTags(s) == ""
    ensures "</" <= t && FindFirst(t, ">").Some? ==>
              FindFirst(t, ">").value < |t| && DropCloseTags(s) == DropCloseTags(t[FindFirst(t, ">").value + 1..])
  {
    hide FindFirst, TrimStart, Suffix, TagEnd;
    FirstBracket(t);
  }

  lemma InkFirst(s: string, t: string)
    requires t == TrimStart(s)
    ensures t != "" ==> !IsWhite(t[0])
  {
    hide TrimStart, IsWhite;
    TrimStartWhite(s);
  }

  lemma LeftAt(s: string, k: nat, rest: string)
    requires k <= |s| && Skipped(s[..k]) && rest == s[k..] && (rest != "" ==> !IsWhite(rest[0]) && !("</" <= rest))
    ensures WithoutTags(s, rest)
  {
    hide Skipped, IsWhite;
  }

  lemma Cut(s: string, k: nat)
    requires k <= |s| && Skipped(s[..k]) && "</" <= s[k..] && '>' !in s[k..]
    ensures WithoutTags(s, "")
  {
    hide Skipped, IsWhite;
  }

  lemma SkippedSome(s: string, rest: string) returns (k: nat)
    requires WithoutTags(s, rest)
    ensures k <= |s| && Skipped(s[..k]) && (rest != "" ==> !IsWhite(rest[0]) && !("</" <= rest))
    ensures rest == s[k..] || (rest == "" && "</" <= s[k..] && '>' !in s[k..])
  {
    hide Skipped, IsWhite;
    k :| k <= |s| && Skipped(s[..k]) && (rest == s[k..] || (rest == "" && "</" <= s[k..] && '>' !in s[k..]));
  }

  lemma Combined(s: string, m: nat, out: string, rest: string, k: nat)
    requires k <= |rest| && m <= |s| && s[m..] == rest[k..] && Skipped(s[..m])
    requires out != "" ==> !IsWhite(out[0]) && !("</" <= out)
    requires out == rest[k..] || (out == "" && "</" <= rest[k..] && '>' !in rest[k..])
    ensures WithoutTags(s, out)
  {
    hide Skipped, IsWhite;
  }

  /** What stands behind the element of an open tag; without a closing tag and without a JSON value it has none. */
  lemma BehindMeans(tag: string, after: string, read: string -> Option<nat>)
    requires |tag| >= 2 && InBounds(read)
    ensures var r := Behind(tag, after, read);
            && (r.Some? ==> EndsWith(tag, after, read, r.value))
            && (r.None? <==> !Contains(after, CloseTag(tag)) && NoValueBefore(after, |after|, read))
  {
    hide *;
    BehindCases(tag, after, read);
    FirstJsonMeans(after, read);
    CloseFound(after, CloseTag(tag));
    var close, end := FindFirst(after, CloseTag(tag)), FirstJsonEnd(after, read);
    if close.Some? {
      EndsAtTag(tag, after, read, close.value);
    } else if end.Some? {
      var j: nat, n: nat :| ValueAt(after, j, n, read) && NoValueBefore(after, j, read) && end.value == j + n;
      DropCloseTagsMeans(after[end.value..]);
      EndsAtValue(tag, after, read, j, n);
      SomeValue(after, j, n, read);
    }
  }

  lemma CloseFound(after: string, p: string)
    ensures FindFirst(after, p).Some? <==> Contains(after, p)
    ensures FindFirst(after, p).Some? ==>
              var i := FindFirst(after, p).value;
              OccursAt(after, p, i) && i + |p| <= |after| && forall j :: 0 <= j < i ==> !OccursAt(after, p, j)
  {
    hide FindFirst;
  }

  lemma EndsAtTag(tag: string, after: string, read: string -> Option<nat>, i: nat)
    requires |tag| >= 2 && OccursAt(after, CloseTag(tag), i) && i + |CloseTag(tag)| <= |after|
    requires forall j :: 0 <= j < i ==> !OccursAt(after, CloseTag(tag), j)
    ensures EndsWith(tag, after, read, after[i + |CloseTag(tag)|..])
  {
    hide OccursAt, ValueAt, NoValueBefore, WithoutTags;
  }

  lemma EndsAtValue(tag: string, after: string, read: string -> Option<nat>, j: nat, n: nat)
    requires |tag| >= 2 && !Contains(after, CloseTag(tag)) && InBounds(read)
    requires ValueAt(after, j, n, read) && NoValueBefore(after, j, read) && j + n <= |after|
    requires WithoutTags(after[j + n..], DropCloseTags(after[j + n..]))
    ensures EndsWith(tag, after, read, DropCloseTags(after[j + n..]))
  {
    hide OccursAt, Contains, ValueAt, NoValueBefore, WithoutTags, DropCloseTags;
  }

  lemma SomeValue(s: string, j: nat, n: nat, read: string -> Option<nat>)
    requires ValueAt(s, j, n, read)
    ensures !NoValueBefore(s, |s|, read)
  {
    assert j < |s|;
  }
}
