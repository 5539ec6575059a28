/**
 Strings as sequences of Unicode scalar values: white space, trimming, searching. Offsets count
 characters where the Rust code counts bytes; both cut only at character boundaries.
 */
module Text {
  import opened Wrappers

  /** The Unicode `White_Space` property. */
  predicate IsWhite(c: char)
  {
    || '\t' <= c <= '\r' || c == ' ' || c == '\U{85}' || c == '\U{A0}' || c == '\U{1680}'
    || '\U{2000}' <= c <= '\U{200A}' || c == '\U{2028}' || c == '\U{2029}' || c == '\U{202F}'
    || c == '\U{205F}' || c == '\U{3000}'
  }

  lemma WhiteCodes(c: char)
    ensures var n := c as int;
            IsWhite(c) <==> 9 <= n <= 13 || 0x2000 <= n <= 0x200A
                            || n in {0x20, 0x85, 0xA0, 0x1680, 0x2028, 0x2029, 0x202F, 0x205F, 0x3000}
  {
  }

  predicate AllWhite(s: string)
  {
    forall i :: 0 <= i < |s| ==> IsWhite(s[i])
  }

  /** The end of the white space from `i` on. */
  function SkipWhite(s: string, i: nat): (r: nat)
    requires i <= |s|
    ensures i <= r <= |s| && forall k :: i <= k < r ==> IsWhite(s[k])
    ensures r < |s| ==> !IsWhite(s[r])
    decreases |s| - i
  {
    if i < |s| && IsWhite(s[i]) then SkipWhite(s, i + 1) else i
  }

  /** The start of the white space in front of `i`. */
  function SkipWhiteBack(s: string, i: nat): (r: nat)
    requires i <= |s|
    ensures r <= i && forall k :: r <= k < i ==> IsWhite(s[k])
    ensures r > 0 ==> !IsWhite(s[r - 1])
  {
    if i > 0 && IsWhite(s[i - 1]) then SkipWhiteBack(s, i - 1) else i
  }

  function TrimStart(s: string): (r: string)
    ensures |r| <= |s| && r == s[|s| - |r|..]
  {
    s[SkipWhite(s, 0)..]
  }

  function TrimEnd(s: string): (r: string)
    ensures |r| <= |s| && r == s[..|r|]
  {
    s[..SkipWhiteBack(s, |s|)]
  }

  lemma TrimStartIs(s: string, k: nat)
    requires k <= |s| && (forall i :: 0 <= i < k ==> IsWhite(s[i])) && (k < |s| ==> !IsWhite(s[k]))
    ensures TrimStart(s) == s[k..]
  {
    hide IsWhite, SkipWhite;
  }

  lemma TrimEndIs(s: string, k: nat)
    requires k <= |s| && (forall i :: k <= i < |s| ==> IsWhite(s[i])) && (k > 0 ==> !IsWhite(s[k - 1]))
    ensures TrimEnd(s) == s[..k]
  {
    hide IsWhite, SkipWhiteBack;
  }

  /** What is cut off is white, and what is left does not start with white space. */
  lemma TrimStartWhite(s: string)
    ensures forall i :: 0 <= i < |s| - |TrimStart(s)| ==> IsWhite(s[i])
    ensures TrimStart(s) != "" ==> !IsWhite(TrimStart(s)[0])
  {
    hide IsWhite, SkipWhite;
  }

  lemma TrimEndWhite(s: string)
    ensures forall i :: |TrimEnd(s)| <= i < |s| ==> IsWhite(s[i])
    ensures TrimEnd(s) != "" ==> !IsWhite(TrimEnd(s)[|TrimEnd(s)| - 1])
  {
    hide IsWhite, SkipWhiteBack;
  }

  /** Trimming as one cut: where the kept part begins and ends. */
  lemma TrimCut(s: string) returns (lo: nat, hi: nat)
    ensures lo <= hi <= |s| && Trim(s) == s[lo..hi]
    ensures forall i :: 0 <= i < lo || hi <= i < |s| ==> IsWhite(s[i])
    ensures lo < hi ==> !IsWhite(s[lo]) && !IsWhite(s[hi - 1])
  {
    hide IsWhite, TrimStart, TrimEnd;
    var m := TrimStart(s);
    TrimStartWhite(s);
    TrimEndWhite(m);
    lo := |s| - |m|;
    hi := lo + |TrimEnd(m)|;
    CutTwice(s, lo, hi);
    forall i | hi <= i < |s|
      ensures IsWhite(s[i])
    {
      assert s[lo..][i - lo] == s[i];
    }
    if lo < hi {
      assert s[lo..hi][0] == s[lo..][0] == s[lo];
      assert s[lo..hi][hi - lo - 1] == s[hi - 1];
    }
  }

  lemma CutTwice(s: string, lo: nat, hi: nat)
    requires lo <= hi <= |s|
    ensures s[lo..][..hi - lo] == s[lo..hi]
  {
  }

  function Trim(s: string): string
  {
    TrimEnd(TrimStart(s))
  }

  /** No white space at either end. */
  predicate Trimmed(s: string)
  {
    s != "" ==> !IsWhite(s[0]) && !IsWhite(s[|s| - 1])
  }

  predicate Blank(s: string)
  {
    Trim(s) == ""
  }

  /** The trimmed text is the one trimmed text obtained by cutting white space off both ends. */
  lemma TrimUnique(a: string, t: string, b: string)
    requires AllWhite(a) && AllWhite(b) && Trimmed(t)
    ensures Trim(a + t + b) == t
  {
    hide TrimStart, TrimEnd, AllWhite, Trimmed, IsWhite;
    assert a + t + b == a + (t + b);
    TrimStartOver(a, t + b);
    TrimFront(t, b);
  }

  lemma TrimFront(t: string, b: string)
    requires AllWhite(b) && Trimmed(t)
    ensures TrimEnd(TrimStart(t + b)) == t
  {
    hide TrimEnd, AllWhite, IsWhite;
    if t == "" {
      assert t + b == b + "";
      TrimStartOver(b, "");
    } else {
      assert (t + b)[0] == t[0];
      assert TrimStart(t + b) == t + b;
      TrimEndOver(t, b);
      NothingToTrim(t);
    }
  }

  lemma NothingToTrim(t: string)
    requires Trimmed(t)
    ensures TrimEnd(t) == t && TrimStart(t) == t
  {
  }

  lemma TrimStartOver(a: string, s: string)
    requires AllWhite(a)
    ensures TrimStart(a + s) == TrimStart(s)
  {
    hide IsWhite, SkipWhite;
    var k := SkipWhite(s, 0);
    assert forall i :: 0 <= i < |a| ==> (a + s)[i] == a[i];
    assert forall i :: |a| <= i < |a + s| ==> (a + s)[i] == s[i - |a|];
    TrimStartIs(a + s, |a| + k);
    assert (a + s)[|a| + k..] == s[k..];
  }

  lemma TrimEndOver(s: string, b: string)
    requires AllWhite(b)
    ensures TrimEnd(s + b) == TrimEnd(s)
  {
    hide IsWhite, SkipWhiteBack;
    var k := SkipWhiteBack(s, |s|);
    assert forall i :: 0 <= i < |s| ==> (s + b)[i] == s[i];
    assert forall i :: |s| <= i < |s + b| ==> (s + b)[i] == b[i - |s|];
    TrimEndIs(s + b, k);
    assert (s + b)[..k] == s[..k];
  }

  /** What trimming removed, on each side. */
  lemma TrimParts(s: string) returns (a: string, b: string)
    ensures s == a + Trim(s) + b && AllWhite(a) && AllWhite(b)
    ensures Trimmed(Trim(s))
  {
    hide IsWhite, Trim;
    var lo, hi := TrimCut(s);
    a, b := s[..lo], s[hi..];
    ThreeParts(s, lo, hi);
  }

  lemma ThreeParts(s: string, lo: nat, hi: nat)
    requires lo <= hi <= |s|
    ensures s == s[..lo] + s[lo..hi] + s[hi..]
  {
  }

  lemma EmptyIsWhite()
    ensures AllWhite("")
  {
  }

  lemma TrimIdempotent(s: string)
    ensures Trim(Trim(s)) == Trim(s)
  {
    hide Trim, IsWhite, AllWhite;
    assert AllWhite("") by {
      EmptyIsWhite();
    }
    var a, b := TrimParts(s);
    TrimUnique("", Trim(s), "");
    assert "" + Trim(s) + "" == Trim(s);
  }

  lemma TrimOver(a: string, s: string, b: string)
    requires AllWhite(a) && AllWhite(b)
    ensures Trim(a + s + b) == Trim(s)
  {
    hide Trim, IsWhite;
    var x, y := TrimParts(s);
    assert a + s + b == (a + x) + Trim(s) + (y + b);
    TrimUnique(a + x, Trim(s), y + b);
  }

  lemma BlankIffAllWhite(s: string)
    ensures Blank(s) <==> AllWhite(s)
  {
    hide Trim, IsWhite;
    var a, b := TrimParts(s);
    if AllWhite(s) {
      TrimUnique(s, "", "");
      assert s + "" + "" == s;
    }
    if Blank(s) {
      assert s == a + b;
    }
  }

  // ---------------------------------------------------------------- searching

  predicate OccursAt(s: string, p: string, i: int)
  {
    0 <= i && i + |p| <= |s| && s[i..i + |p|] == p
  }

  ghost predicate Contains(s: string, p: string)
  {
    exists i :: OccursAt(s, p, i)
  }

  lemma SliceBehind(s: string, i: nat, j: nat)
    requires 1 <= i <= j <= |s|
    ensures s[i..j] == s[1..][i - 1..j - 1]
  {
    var t := s[1..];
    forall k | 0 <= k < j - i
      ensures s[i..j][k] == t[i - 1..j - 1][k]
    {
      assert s[i..j][k] == s[i + k];
      assert t[i - 1..j - 1][k] == t[i - 1 + k] == s[i + k];
    }
  }

  lemma OccursOneBehind(s: string, p: string, i: int)
    requires s != ""
    ensures OccursAt(s, p, i) <==> if i == 0 then p <= s else OccursAt(s[1..], p, i - 1)
  {
    if 1 <= i && i + |p| <= |s| {
      SliceBehind(s, i, i + |p|);
    }
  }

  lemma OccursBehind(s: string, p: string)
    requires s != ""
    ensures forall i :: OccursAt(s, p, i) <==> if i == 0 then p <= s else OccursAt(s[1..], p, i - 1)
  {
    hide OccursAt;
    forall i
      ensures OccursAt(s, p, i) <==> if i == 0 then p <= s else OccursAt(s[1..], p, i - 1)
    {
      OccursOneBehind(s, p, i);
    }
  }

  /** The first occurrence of `p`. */
  function FindFirst(s: string, p: string): (r: Option<nat>)
    ensures r.Some? ==> OccursAt(s, p, r.value) && forall i :: 0 <= i < r.value ==> !OccursAt(s, p, i)
    ensures r.None? ==> forall i :: !OccursAt(s, p, i)
    decreases |s|
  {
    if p <= s then Some(0)
    else if s == "" then None
    else
      var r := FindFirst(s[1..], p);
      OccursBehind(s, p);
      if r.Some? then Some(r.value + 1) else None
  }

  lemma FindFirstIs(s: string, p: string, i: nat)
    requires OccursAt(s, p, i) && forall j :: 0 <= j < i ==> !OccursAt(s, p, j)
    ensures FindFirst(s, p) == Some(i)
  {
    hide FindFirst, OccursAt;
  }

  lemma FindFirstNone(s: string, p: string)
    requires forall j :: !OccursAt(s, p, j)
    ensures FindFirst(s, p) == None
  {
  }

  /** Occurrences inside a prefix are occurrences of the whole, and conversely. */
  lemma OccursInPrefix(a: string, b: string, p: string, i: int)
    ensures i + |p| <= |a| ==> (OccursAt(a + b, p, i) <==> OccursAt(a, p, i))
    ensures OccursAt(a, p, i) ==> OccursAt(a + b, p, i)
  {
    if 0 <= i && i + |p| <= |a| {
      assert (a + b)[i..i + |p|] == a[i..i + |p|];
    }
  }

  lemma OccursInSuffix(a: string, b: string, p: string, i: int)
    ensures i >= |a| ==> (OccursAt(a + b, p, i) <==> OccursAt(b, p, i - |a|))
  {
    if i >= |a| && i + |p| <= |a + b| {
      assert (a + b)[i..i + |p|] == b[i - |a|..i - |a| + |p|];
    }
  }

  lemma NotAtOtherChar(s: string, p: string, i: int)
    requires p != "" && (0 <= i < |s| ==> s[i] != p[0])
    ensures !OccursAt(s, p, i)
  {
    if 0 <= i && i + |p| <= |s| {
      assert s[i..i + |p|][0] == s[i];
    }
  }

  /** An occurrence cannot run across a character that the pattern does not contain. */
  lemma OccursNotAcross(s: string, p: string, i: int, k: int)
    requires OccursAt(s, p, i) && i <= k < i + |p|
    ensures s[k] in p
  {
    assert s[k] == s[i..i + |p|][k - i];
  }

  // ---------------------------------------------------------------- lines

  /** The characters from `o` to `e` are one line, with its line break if it has one. */
  predicate IsLine(text: string, o: nat, e: nat)
  {
    && o < e <= |text| && (o == 0 || text[o - 1] == '\n')
    && (e == |text| || text[e - 1] == '\n') && forall k :: o <= k < e - 1 ==> text[k] != '\n'
  }

  /** Lines do not overlap. */
  lemma LinesApart(text: string, o: nat, e: nat, p: nat, q: nat)
    requires IsLine(text, o, e) && IsLine(text, p, q) && o <= p
    ensures p < e ==> p == o && q == e
  {
    if o < p {
      NoBreakInside(text, o, e, p);
    }
    NoBreakInside(text, o, e, q);
    NoBreakInside(text, p, q, e);
  }

  lemma NoBreakInside(text: string, o: nat, e: nat, k: nat)
    requires IsLine(text, o, e)
    ensures o < k < e ==> text[k - 1] != '\n'
  {
  }

  lemma BreaksAre(s: string)
    ensures forall i :: OccursAt(s, "\n", i) <==> 0 <= i < |s| && s[i] == '\n'
  {
    forall i
      ensures OccursAt(s, "\n", i) <==> 0 <= i < |s| && s[i] == '\n'
    {
      if 0 <= i < |s| {
        assert s[i..i + 1] == [s[i]];
      }
    }
  }

  // ---------------------------------------------------------------- ASCII case

  function LowerChar(c: char): char
  {
    if 'A' <= c <= 'Z' then c - 'A' + 'a' else c
  }

  /** Only the capital Latin letters change, each into its small one. */
  lemma LowerCodes(c: char)
    ensures LowerChar(c) as int == if 65 <= c as int <= 90 then c as int + 32 else c as int
  {
  }

  function Lower(s: string): (r: string)
    ensures |r| == |s| && forall i :: 0 <= i < |s| ==> r[i] == LowerChar(s[i])
  {
    seq(|s|, i requires 0 <= i < |s| => LowerChar(s[i]))
  }
}
