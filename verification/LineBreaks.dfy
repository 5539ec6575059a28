/**
 Collapsing runs of line breaks: replacing three breaks by two until none are left, against a one-pass rewrite.
 */
module LineBreaks {
  import opened Wrappers
  import opened Text

  function Triple(): string
  {
    "\n\n\n"
  }

  predicate StartsTriple(s: string)
  {
    |s| >= 3 && s[0] == '\n' && s[1] == '\n' && s[2] == '\n'
  }

  /** Replaces the non-overlapping triples, leftmost first, by two breaks each. */
  function ReplaceTriples(s: string): (r: string)
    ensures |r| <= |s|
  {
    if s == "" then ""
    else if StartsTriple(s) then "\n\n" + ReplaceTriples(s[3..])
    else [s[0]] + ReplaceTriples(s[1..])
  }

  /** One pass that lets at most two breaks of each run through, `k` of the current run being through already. */
  function Cap(k: nat, s: string): string
    requires k <= 2
    decreases |s|
  {
    if s == "" then ""
    else if s[0] != '\n' then [s[0]] + Cap(0, s[1..])
    else if k < 2 then ['\n'] + Cap(k + 1, s[1..])
    else Cap(2, s[1..])
  }

  /** `k` breaks, then `s`. */
  function After(k: nat, s: string): string
    requires k <= 2
  {
    if k == 0 then s else if k == 1 then "\n" + s else "\n\n" + s
  }

  /** How many breaks of the run are through after `c`. */
  function Through(k: nat, c: char): (j: nat)
    requires k <= 2
    ensures j <= 2
  {
    if c != '\n' then 0 else if k < 2 then k + 1 else 2
  }

  lemma CapCons(k: nat, c: char, t: string)
    requires k <= 2
    ensures Cap(k, [c] + t) == (if c == '\n' && k == 2 then "" else [c]) + Cap(Through(k, c), t)
  {
    assert ([c] + t)[1..] == t;
  }

  lemma CapTwo(k: nat, t: string)
    requires k <= 2
    ensures Cap(k, "\n\n" + t) == After(2 - k, "") + Cap(2, t)
  {
    hide Cap;
    assert "\n\n" + t == ['\n'] + (['\n'] + t);
    CapCons(k, '\n', ['\n'] + t);
    CapCons(Through(k, '\n'), '\n', t);
  }

  lemma CapThree(k: nat, t: string)
    requires k <= 2
    ensures Cap(k, Triple() + t) == After(2 - k, "") + Cap(2, t)
  {
    hide Cap, After;
    assert Triple() + t == "\n\n" + (['\n'] + t);
    CapTwo(k, ['\n'] + t);
    CapCons(2, '\n', t);
  }

  /** A replacement pass does not change what the one-pass rewrite yields. */
  lemma {:induction false} CapReplaced(k: nat, s: string)
    requires k <= 2
    ensures Cap(k, ReplaceTriples(s)) == Cap(k, s)
    decreases |s|
  {
    hide Cap;
    if s == "" {
    } else if StartsTriple(s) {
      var t := s[3..];
      CapReplaced(2, t);
      assert s == Triple() + t;
      CapThree(k, t);
      CapTwo(k, ReplaceTriples(t));
    } else {
      CapReplaced(Through(k, s[0]), s[1..]);
      CapCons(k, s[0], s[1..]);
      CapCons(k, s[0], ReplaceTriples(s[1..]));
      assert s == [s[0]] + s[1..];
    }
  }

  /** No run is longer than two, counting `k` breaks in front of `s`. */
  predicate Capped(k: nat, s: string)
    decreases |s|
  {
    s == "" || if s[0] != '\n' then Capped(0, s[1..]) else k < 2 && Capped(k + 1, s[1..])
  }

  lemma {:induction false} CapOfCapped(k: nat, s: string)
    requires k <= 2 && Capped(k, s)
    ensures Cap(k, s) == s
    decreases |s|
  {
    if s != "" {
      CapOfCapped(if s[0] != '\n' then 0 else k + 1, s[1..]);
    }
  }

  lemma {:induction false} CapIsCapped(k: nat, s: string)
    requires k <= 2
    ensures Capped(k, Cap(k, s))
    decreases |s|
  {
    if s != "" {
      CapIsCapped(Through(k, s[0]), s[1..]);
    }
  }

  lemma TripleAhead(k: nat, s: string)
    requires k <= 2 && s != "" && s[0] == '\n'
    ensures k < 2 ==> After(k, s) == After(k + 1, s[1..])
    ensures k == 2 ==> OccursAt(After(k, s), Triple(), 0)
  {
    assert s == ['\n'] + s[1..];
    if k == 2 {
      assert After(k, s)[0..3] == Triple();
    }
  }

  lemma OtherAhead(k: nat, s: string)
    requires k <= 2 && s != "" && s[0] != '\n'
    ensures Contains(After(k, s), Triple()) <==> Contains(s[1..], Triple())
  {
    hide *;
    FrontOf(k, s);
    TripleBehind(After(k, [s[0]]), s[1..]);
  }

  lemma FrontOf(k: nat, s: string)
    requires k <= 2 && s != "" && s[0] != '\n'
    ensures var front := After(k, [s[0]]);
            After(k, s) == front + s[1..] && 0 < |front| <= 3 && front[|front| - 1] != '\n'
  {
    assert s == [s[0]] + s[1..];
  }

  lemma TripleBehind(front: string, t: string)
    requires 0 < |front| <= 3 && front[|front| - 1] != '\n'
    ensures Contains(front + t, Triple()) <==> Contains(t, Triple())
  {
    hide OccursAt, Triple;
    if Contains(t, Triple()) {
      var i :| OccursAt(t, Triple(), i);
      OccursInSuffix(front, t, Triple(), i + |front|);
      Index(t, Triple(), i);
      assert OccursAt(front + t, Triple(), i + |front|);
    }
    if Contains(front + t, Triple()) {
      var i :| OccursAt(front + t, Triple(), i);
      NotOnFront(front, t, i);
      OccursInSuffix(front, t, Triple(), i);
    }
  }

  lemma Index(s: string, p: string, i: int)
    requires OccursAt(s, p, i)
    ensures i >= 0
  {
  }

  lemma NotOnFront(front: string, t: string, i: int)
    requires 0 < |front| <= 3 && front[|front| - 1] != '\n' && OccursAt(front + t, Triple(), i)
    ensures i >= |front|
  {
    hide OccursAt;
    Index(front + t, Triple(), i);
    if i < |front| {
      OccursNotAcross(front + t, Triple(), i, |front| - 1);
    }
  }

  lemma {:induction false} CappedIffNoTriple(k: nat, s: string)
    requires k <= 2
    ensures Capped(k, s) <==> !Contains(After(k, s), Triple())
    decreases |s|
  {
    hide After, Contains, OccursAt;
    if s == "" {
      ShortHasNoTriple(k);
    } else if s[0] != '\n' {
      CappedIffNoTriple(0, s[1..]);
      OtherAhead(k, s);
      AfterNone(s[1..]);
    } else {
      TripleAhead(k, s);
      if k < 2 {
        CappedIffNoTriple(k + 1, s[1..]);
      } else {
        OccursContains(After(k, s), Triple(), 0);
      }
    }
  }

  lemma AfterNone(s: string)
    ensures After(0, s) == s
  {
  }

  lemma OccursContains(s: string, p: string, i: int)
    requires OccursAt(s, p, i)
    ensures Contains(s, p)
  {
  }

  lemma ShortHasNoTriple(k: nat)
    requires k <= 2
    ensures !Contains(After(k, ""), Triple())
  {
  }

  /** A text is left alone exactly when it holds no triple. */
  lemma CapFixpoint(s: string)
    ensures Cap(0, s) == s <==> !Contains(s, Triple())
    ensures !Contains(Cap(0, s), Triple())
  {
    hide After, Contains;
    CappedIffNoTriple(0, s);
    AfterNone(s);
    CapIsCapped(0, s);
    CappedIffNoTriple(0, Cap(0, s));
    AfterNone(Cap(0, s));
    if Capped(0, s) {
      CapOfCapped(0, s);
    }
  }

  lemma {:induction false} ReplaceShortens(s: string, i: nat)
    requires OccursAt(s, Triple(), i)
    ensures |ReplaceTriples(s)| < |s|
  {
    assert s[i..i + 3][0] == s[i] && s[i..i + 3][1] == s[i + 1] && s[i..i + 3][2] == s[i + 2];
    if !StartsTriple(s) {
      assert s[1..][i - 1..i + 2] == s[i..i + 3];
      ReplaceShortens(s[1..], i - 1);
    }
  }

  /** The rewrite loop ends, and what it ends with is the one-pass rewrite. */
  method Collapse(text: string) returns (result: string)
    ensures result == Cap(0, text)
    ensures !Contains(result, Triple())
  {
    hide ReplaceTriples, Cap, Contains, Triple;
    result := text;
    var found := FindFirst(result, Triple());
    while found.Some?
      invariant found == FindFirst(result, Triple())
      invariant Cap(0, result) == Cap(0, text)
      decreases |result|
    {
      CapReplaced(0, result);
      ReplaceShortens(result, found.value);
      result := ReplaceTriples(result);
      found := FindFirst(result, Triple());
    }
    NotFound(result, Triple());
    CapFixpoint(result);
  }

  lemma NotFound(s: string, p: string)
    requires FindFirst(s, p).None?
    ensures !Contains(s, p)
  {
  }

  // ---------------------------------------------------------------- what the one-pass rewrite changes

  /** The characters other than line breaks. */
  function Others(s: string): string
  {
    if s == "" then "" else (if s[0] == '\n' then "" else [s[0]]) + Others(s[1..])
  }

  /** How many breaks stand before each other character, and at the end. */
  function Gaps(s: string): (g: seq<nat>)
    ensures |g| > 0
  {
    if s == "" then [0] else Grown(s[0], Gaps(s[1..]))
  }

  /** The gaps once `c` is put in front. */
  function Grown(c: char, g: seq<nat>): (r: seq<nat>)
    requires |g| > 0
    ensures |r| > 0
  {
    if c == '\n' then [g[0] + 1] + g[1..] else [0] + g
  }

  lemma {:induction false} GapsPerOther(s: string)
    ensures |Gaps(s)| == |Others(s)| + 1
  {
    if s != "" {
      GapsPerOther(s[1..]);
    }
  }

  /** The other characters and the gaps between them are all there is to a text. */
  lemma {:induction false} GapsDetermine(s: string, t: string)
    requires Others(s) == Others(t) && Gaps(s) == Gaps(t)
    ensures s == t
    decreases |s|
  {
    GapsPerOther(s);
    GapsPerOther(t);
    if s == "" {
      EmptyGaps(t);
    } else if t == "" {
      EmptyGaps(s);
    } else {
      HeadGap(s);
      HeadGap(t);
      GapsDetermine(s[1..], t[1..]);
      assert s == [s[0]] + s[1..];
      assert t == [t[0]] + t[1..];
    }
  }

  lemma EmptyGaps(s: string)
    requires Others(s) == "" && Gaps(s) == [0]
    ensures s == ""
  {
    if s != "" {
      SomeGap(s);
    }
  }

  lemma SomeGap(s: string)
    requires s != ""
    ensures !(Others(s) == "" && Gaps(s) == [0])
  {
  }

  /** The first gap tells whether a text starts with a break, and the rest follows. */
  lemma HeadGap(s: string)
    requires s != ""
    ensures s[0] == '\n' <==> Gaps(s)[0] > 0
    ensures s[0] == '\n' ==> Gaps(s[1..]) == [Gaps(s)[0] - 1] + Gaps(s)[1..] && Others(s[1..]) == Others(s)
    ensures s[0] != '\n' ==> Gaps(s[1..]) == Gaps(s)[1..] && Others(s) == [s[0]] + Others(s[1..]) && Others(s)[1..] == Others(s[1..])
  {
  }

  function Least(a: nat, b: nat): nat
  {
    if a < b then a else b
  }

  /** Every gap capped at two, the first at what the run has left. */
  ghost predicate CappedGaps(g: seq<nat>, h: seq<nat>, first: nat)
  {
    |h| == |g| > 0 && h[0] == Least(g[0], first) && forall i :: 1 <= i < |g| ==> h[i] == Least(g[i], 2)
  }

  lemma GapsCons(c: char, t: string)
    ensures Gaps([c] + t) == Grown(c, Gaps(t))
    ensures Others([c] + t) == (if c == '\n' then "" else [c]) + Others(t)
  {
    hide Grown;
    assert ([c] + t)[1..] == t;
  }

  lemma CappedGapsStep(k: nat, c: char, g: seq<nat>, h: seq<nat>)
    requires k <= 2 && CappedGaps(g, h, 2 - Through(k, c))
    ensures CappedGaps(Grown(c, g), if c == '\n' && k == 2 then h else Grown(c, h), 2 - k)
  {
    if c == '\n' {
      assert forall i :: 1 <= i < |g| ==> Grown(c, g)[i] == g[i];
    } else {
      assert forall i :: 1 <= i <= |g| ==> Grown(c, g)[i] == g[i - 1];
    }
  }

  /** The one-pass rewrite caps every gap at two and changes nothing else. */
  lemma {:induction false} CapMeaning(k: nat, s: string)
    requires k <= 2
    ensures Others(Cap(k, s)) == Others(s)
    ensures CappedGaps(Gaps(s), Gaps(Cap(k, s)), 2 - k)
    decreases |s|
  {
    if s == "" {
      EmptyCapped(k);
    } else {
      hide *;
      var c, j := s[0], Through(k, s[0]);
      var rest := Cap(j, s[1..]);
      CapMeaning(j, s[1..]);
      assert s == [c] + s[1..];
      CapCons(k, c, s[1..]);
      GapsCons(c, s[1..]);
      GapsCons(c, rest);
      CappedGapsStep(k, c, Gaps(s[1..]), Gaps(rest));
      if c == '\n' && k == 2 {
        assert "" + rest == rest;
        assert "" + Others(s[1..]) == Others(s[1..]);
      }
    }
  }

  lemma EmptyCapped(k: nat)
    requires k <= 2
    ensures Cap(k, "") == "" && CappedGaps(Gaps(""), Gaps(""), 2 - k)
  {
  }
}
